/** The channel object: zero-terminated arrays printed into a buffer and filled token by token. */
module ChannelRecord {
  import opened Common
  import opened ChannelText
  import opened ChannelLine

  function FirstZero(p: seq<int>): (i: nat)
    ensures i <= |p| && (i < |p| ==> p[i] == 0)
    ensures forall j :: 0 <= j < i ==> p[j] != 0
  {
    if p == [] || p[0] == 0 then 0 else 1 + FirstZero(p[1..])
  }

  lemma FirstZeroIs(p: seq<int>, i: nat)
    requires i < |p| && p[i] == 0 && forall j :: 0 <= j < i ==> p[j] != 0
    ensures FirstZero(p) == i
  {
  }

  /** The entries in front of the first zero PID. */
  function Entries(pids: seq<int>, langs: seq<string>, kinds: seq<int>, types: bool): (ts: seq<Track>)
    requires FirstZero(pids) <= |langs| && (types ==> FirstZero(pids) <= |kinds|)
    ensures |ts| == FirstZero(pids)
  {
    seq(FirstZero(pids), i requires 0 <= i < FirstZero(pids) => Track(pids[i], langs[i], if types then kinds[i] else 0))
  }

  function Ids(ids: seq<int>): seq<int> {
    ids[..FirstZero(ids)]
  }

  // ---------------------------------------------------------------------------
  // Printing arrays
  // ---------------------------------------------------------------------------

  function NumberText(n: int, base: nat): string {
    if base == 16 then HexText(n) else Dec(n)
  }

  /** What is printed for one entry. */
  function EntryText(t: Track, base: nat): string {
    NumberText(t.pid, base)
    + if t.pid == 0 then ""
      else (if t.lang != "" then "=" + t.lang else "")
           + (if t.kind != 0 then (if t.lang != "" then "" else "=") + "@" + Dec(t.kind) else "")
  }

  function EntryTexts(ts: seq<Track>, base: nat): (s: seq<string>)
    ensures |s| == |ts|
  {
    seq(|ts|, i requires 0 <= i < |ts| => EntryText(ts[i], base))
  }

  lemma {:induction false} JoinOneMore(ps: seq<string>, p: string)
    ensures Join(ps + [p]) == if ps == [] then p else Join(ps) + "," + p
  {
    if |ps| == 1 {
      assert (ps + [p])[1..] == [p];
    } else if |ps| > 1 {
      assert (ps + [p])[1..] == ps[1..] + [p];
      JoinOneMore(ps[1..], p);
    }
  }

  lemma ZeroText(base: nat)
    requires base == 10 || base == 16
    ensures NumberText(0, base) == "0"
  {
    assert Digits(0, base) == "0";
  }

  /** The array's entries as `IntArrayToString` sees them, without languages or types if there
      are no arrays for them. */
  ghost function Seen(a: array<int>, n: array?<string>, t: array?<int>): (ts: seq<Track>)
    reads a, if n != null then {n} else {}, if t != null then {t} else {}
    requires FirstZero(a[..]) < a.Length
    requires n != null ==> FirstZero(a[..]) <= n.Length
    requires t != null ==> FirstZero(a[..]) <= t.Length
    ensures |ts| == FirstZero(a[..])
    ensures forall i :: 0 <= i < |ts| ==>
      ts[i] == Track(a[i], if n != null then n[i] else "", if t != null then t[i] else 0)
  {
    var z := FirstZero(a[..]);
    var p, l, k := a[..z], if n != null then n[..z] else seq(z, _ => ""), if t != null then t[..z] else seq(z, _ => 0);
    seq(z, i requires 0 <= i < z => Track(p[i], l[i], k[i]))
  }

  lemma JoinTo(ps: seq<string>, i: nat)
    requires i < |ps|
    ensures Join(ps[..i + 1]) == Join(ps[..i]) + ((if i != 0 then "," else "") + ps[i])
  {
    JoinOneMore(ps[..i], ps[i]);
    assert ps[..i] + [ps[i]] == ps[..i + 1];
    assert i != 0 ==> Join(ps[..i]) + "," + ps[i] == Join(ps[..i]) + ("," + ps[i]);
  }

  /** The entry at `i`, with what follows its number. */
  method PrintEntry(a: array<int>, base: nat, n: array?<string>, t: array?<int>, i: nat) returns (s: string)
    requires base == 10 || base == 16
    requires i < a.Length && (a[i] != 0 && n != null ==> i < n.Length) && (a[i] != 0 && t != null ==> i < t.Length)
    ensures a[i] != 0 ==>
      s == EntryText(Track(a[i], if n != null then n[i] else "", if t != null then t[i] else 0), base)
    ensures a[i] == 0 ==> s == "0"
  {
    s := NumberText(a[i], base);
    if a[i] == 0 {
      ZeroText(base);
    }
    hide NumberText, Dec;
    var delim := "=";
    if a[i] != 0 {
      if n != null && n[i] != "" {
        s := s + (delim + n[i]);
        delim := "";
      }
      if t != null && t[i] != 0 {
        s := s + (delim + "@" + Dec(t[i]));
      }
    }
  }

  method IntArrayToString(a: array<int>, base: nat, n: array?<string>, t: array?<int>) returns (s: string)
    requires base == 10 || base == 16
    requires FirstZero(a[..]) < a.Length
    requires n != null ==> FirstZero(a[..]) <= n.Length
    requires t != null ==> FirstZero(a[..]) <= t.Length
    ensures s == if a[0] == 0 then "0" else Join(EntryTexts(Seen(a, n, t), base))
  {
    hide FirstZero, Join, EntryText, NumberText;
    ghost var ts := Seen(a, n, t);
    ghost var ps := EntryTexts(ts, base);
    s := "";
    assert Join([]) == "" by { JoinNothing(); }
    assert ps[..0] == [];
    var i := 0;
    while a[i] != 0 || i == 0
      invariant i <= |ts| && s == Join(ps[..i])
      decreases |ts| - i
    {
      var e := PrintEntry(a, base, n, t, i);
      s := s + ((if i != 0 then "," else "") + e);
      if a[i] == 0 {
        assert s == "0";
        break;
      }
      JoinTo(ps, i);
      i := i + 1;
    }
    assert ps[..|ts|] == ps;
  }

  lemma JoinNothing()
    ensures Join([]) == ""
  {
  }

  lemma PrintsTracks(ts: seq<Track>, types: bool)
    requires forall i :: 0 <= i < |ts| ==> ts[i].pid != 0 && (!types ==> ts[i].kind == 0)
    ensures Printed(ts, types) == EntryTexts(ts, 10)
  {
    hide Dec;
    assert forall i :: 0 <= i < |ts| ==> PrintTrack(ts[i], types) == EntryText(ts[i], 10);
  }

  lemma PrintsIds(ts: seq<Track>, ids: seq<int>)
    requires |ts| == |ids|
    requires forall i :: 0 <= i < |ts| ==> ts[i] == Track(ids[i], "", 0)
    ensures Hex(ids) == EntryTexts(ts, 16)
  {
    hide HexText;
    forall i | 0 <= i < |ts|
      ensures EntryText(ts[i], 16) == HexText(ids[i])
    {
      assert HexText(ids[i]) + "" == HexText(ids[i]);
    }
  }

  /** A PID array prints as its list of entries. */
  method PrintPids(a: array<int>, n: array<string>, t: array?<int>) returns (s: string)
    requires FirstZero(a[..]) < a.Length && FirstZero(a[..]) <= n.Length && (t != null ==> FirstZero(a[..]) <= t.Length)
    ensures s == PrintList(Entries(a[..], n[..], if t != null then t[..] else [], t != null), t != null)
  {
    s := IntArrayToString(a, 10, n, t);
    ghost var ts := Seen(a, n, t);
    assert ts == Entries(a[..], n[..], if t != null then t[..] else [], t != null);
    hide Seen, Entries;
    PrintsTracks(ts, t != null);
  }

  method PrintIds(a: array<int>) returns (s: string)
    requires FirstZero(a[..]) < a.Length
    ensures s == CaText(Ids(a[..]))
  {
    s := IntArrayToString(a, 16, null, null);
    hide Seen;
    PrintsIds(Seen(a, null, null), Ids(a[..]));
  }

  // ---------------------------------------------------------------------------
  // Parsing into arrays
  // ---------------------------------------------------------------------------

  function SkipCommas(s: string): (t: string)
    ensures t != "" ==> t[0] != ','
    ensures |t| <= |s|
  {
    if s != "" && s[0] == ',' then SkipCommas(s[1..]) else s
  }

  /** `strtok_r` with a comma: the next token, and what is behind its delimiter. */
  function StrTok(s: string): (r: (Option<string>, string))
    ensures r.0.Some? ==> |r.1| < |s|
  {
    var t := SkipCommas(s);
    if t == "" then (None, "")
    else
      var i := Find(t, ',');
      (Some(t[..i]), if i < |t| then t[i + 1..] else "")
  }

  lemma {:induction false} SkipCommasTokens(s: string)
    ensures Tokens(s) == Tokens(SkipCommas(s))
    decreases |s|
  {
    if s != "" && s[0] == ',' {
      SkipCommasTokens(s[1..]);
    }
  }

  lemma StrTokTokens(s: string)
    ensures Tokens(s) == match StrTok(s).0 { case None => [] case Some(q) => [q] + Tokens(StrTok(s).1) }
  {
    hide Find;
    SkipCommasTokens(s);
    var t := SkipCommas(s);
    if t != "" {
      var i := Find(t, ',');
      if i < |t| {
        assert t[i..][0] == ',';
        assert t[i..][1..] == t[i + 1..];
      } else {
        assert t[i..] == "";
      }
    }
  }

  /** The entries of the first `n` places. */
  function Placed(p: seq<int>, l: seq<string>, k: seq<int>, types: bool, n: nat): (ts: seq<Track>)
    requires n <= |p| && n <= |l| && (types ==> n <= |k|)
    ensures |ts| == n
  {
    seq(n, i requires 0 <= i < n => Track(p[i], l[i], if types then k[i] else 0))
  }

  lemma {:induction false} UpToZeroIs(ts: seq<Track>, z: nat)
    requires z <= |ts| && (z < |ts| ==> ts[z].pid == 0) && forall i :: 0 <= i < z ==> ts[i].pid != 0
    ensures UpToZero(ts) == ts[..z]
    decreases z
  {
    if z > 0 {
      UpToZeroIs(ts[1..], z - 1);
      assert [ts[0]] + ts[1..][..z - 1] == ts[..z];
    }
  }

  lemma NonePlaced(p: seq<int>, l: seq<string>, k: seq<int>, types: bool)
    ensures Placed(p, l, k, types, 0) == []
  {
  }

  /** Writing place `n` puts one more entry behind the others. */
  lemma OnePlaced(p: seq<int>, l: seq<string>, k: seq<int>, p': seq<int>, l': seq<string>, k': seq<int>, types: bool, n: nat)
    requires n < |p| && n < |l| && (types ==> n < |k|)
    requires |p'| == |p| && |l'| == |l| && |k'| == |k|
    requires p'[..n] == p[..n] && l'[..n] == l[..n] && (types ==> k'[..n] == k[..n])
    ensures Placed(p', l', k', types, n + 1)
         == Placed(p, l, k, types, n) + [Track(p'[n], l'[n], if types then k'[n] else 0)]
  {
    assert forall i :: 0 <= i < n ==> p'[i] == p'[..n][i] == p[i] && l'[i] == l'[..n][i] == l[i];
    assert types ==> forall i :: 0 <= i < n ==> k'[i] == k'[..n][i] == k[i];
  }

  /** Writing behind the places changes none of them. */
  lemma PlacedKept(p: seq<int>, l: seq<string>, k: seq<int>, p': seq<int>, k': seq<int>, types: bool, n: nat)
    requires n < |p| == |p'| && n <= |l| && (types ==> n < |k| == |k'|)
    requires p'[..n] == p[..n] && (types ==> k'[..n] == k[..n])
    ensures Placed(p', l, k', types, n) == Placed(p, l, k, types, n)
  {
    assert forall i :: 0 <= i < n ==> p'[i] == p'[..n][i] == p[i];
    assert types ==> forall i :: 0 <= i < n ==> k'[i] == k'[..n][i] == k[i];
  }

  /** A zero behind the places ends the list. */
  lemma PlacedEnds(p: seq<int>, l: seq<string>, k: seq<int>, types: bool, n: nat)
    requires n < |p| && p[n] == 0 && n <= |l| && (types ==> n <= |k|)
    ensures FirstZero(p) <= n
    ensures Entries(p, l, k, types) == UpToZero(Placed(p, l, k, types, n))
  {
    var z := FirstZero(p);
    assert z <= n;
    hide FirstZero;
    UpToZeroIs(Placed(p, l, k, types, n), z);
  }

  /** One token into place `n`. */
  method ParsePid(q: string, pids: array<int>, langs: array<string>, kinds: array?<int>, default: int, n: nat)
    requires pids != kinds && n < pids.Length && n < langs.Length && (kinds != null ==> n < kinds.Length)
    requires kinds == null ==> default == 0
    modifies pids, langs, if kinds != null then {kinds} else {}
    ensures pids[..] == old(pids[..])[n := pids[n]] && langs[..] == old(langs[..])[n := langs[n]]
    ensures kinds != null ==> kinds[..] == old(kinds[..])[n := kinds[n]]
    ensures Track(pids[n], langs[n], if kinds != null then kinds[n] else 0) == ParseTrack(q, default, kinds != null)
  {
    hide StrToL, Truncated, Find;
    if kinds != null {
      kinds[n] := default;
    }
    var i := Find(q, '=');
    if i < |q| {
      var l := q[i + 1..];
      var j := Find(l, '@');
      if kinds != null && j < |l| {
        kinds[n] := StrToL(l[j + 1..], 10);
        l := l[..j];
      }
      langs[n] := Truncated(l);
    } else {
      langs[n] := "";
    }
    pids[n] := StrToL(q[..i], 10);
    assert i == |q| ==> q[..i] == q;
  }

  /** What a loop over tokens has yet to place. */
  lemma ParseTokensStep(s: string, room: nat, default: int, types: bool)
    ensures var (q, r) := StrTok(s);
      ParseTokens(Tokens(s), room, default, types)
      == if q.None? || room == 0 then []
         else [ParseTrack(q.value, default, types)] + ParseTokens(Tokens(r), room - 1, default, types)
    ensures room == 0 ==> ParseTokens(Tokens(StrTok(s).1), room, default, types) == []
  {
    StrTokTokens(s);
    hide StrTok, Tokens, ParseTrack;
  }

  lemma Moved(done: seq<Track>, t: Track, tail: seq<Track>)
    ensures done + ([t] + tail) == (done + [t]) + tail
  {
  }

  /** The next token into the next place. */
  method PlacePid(q: string, pids: array<int>, langs: array<string>, kinds: array?<int>, default: int, n: nat)
    requires pids != kinds && n < pids.Length && n < langs.Length && (kinds != null ==> n < kinds.Length)
    requires kinds == null ==> default == 0
    modifies pids, langs, if kinds != null then {kinds} else {}
    ensures Placed(pids[..], langs[..], if kinds != null then kinds[..] else [], kinds != null, n + 1)
         == old(Placed(pids[..], langs[..], if kinds != null then kinds[..] else [], kinds != null, n))
            + [ParseTrack(q, default, kinds != null)]
  {
    hide ParseTrack, Placed;
    ghost var types := kinds != null;
    ghost var p, l, k := pids[..], langs[..], if types then kinds[..] else [];
    ParsePid(q, pids, langs, kinds, default, n);
    OnePlaced(p, l, k, pids[..], langs[..], if types then kinds[..] else [], types, n);
  }

  /** The zero that ends the list. */
  method EndPids(pids: array<int>, langs: array<string>, kinds: array?<int>, n: nat)
    requires pids != kinds && n < pids.Length && n <= langs.Length && (kinds != null ==> n < kinds.Length)
    modifies pids, if kinds != null then {kinds} else {}
    ensures FirstZero(pids[..]) <= n
    ensures Entries(pids[..], langs[..], if kinds != null then kinds[..] else [], kinds != null)
         == UpToZero(old(Placed(pids[..], langs[..], if kinds != null then kinds[..] else [], kinds != null, n)))
  {
    hide FirstZero, Placed, UpToZero, Entries;
    ghost var types := kinds != null;
    ghost var p, l, k := pids[..], langs[..], if types then kinds[..] else [];
    pids[n] := 0;
    if kinds != null {
      kinds[n] := 0;
    }
    PlacedKept(p, l, k, pids[..], if types then kinds[..] else [], types, n);
    PlacedEnds(pids[..], langs[..], if types then kinds[..] else [], types, n);
  }

  /** The loop over the tokens of a PID list; tokens beyond the limit are reported and dropped. */
  method ParsePids(s: string, pids: array<int>, langs: array<string>, kinds: array?<int>, default: int)
    requires pids != kinds && pids.Length == langs.Length + 1 && (kinds != null ==> langs.Length < kinds.Length)
    requires kinds == null ==> default == 0
    modifies pids, langs, if kinds != null then {kinds} else {}
    ensures FirstZero(pids[..]) <= langs.Length
    ensures Entries(pids[..], langs[..], if kinds != null then kinds[..] else [], kinds != null)
         == ParseList(s, langs.Length, default, kinds != null)
  {
    hide StrTok, Tokens, ParseTokens, ParseTrack, FirstZero, Placed, UpToZero, Entries;
    var max, types := langs.Length, kinds != null;
    var n, rest, more := 0, s, true;
    ghost var done: seq<Track> := [];
    NonePlaced(pids[..], langs[..], if types then kinds[..] else [], types);
    while more
      invariant n <= max
      invariant done == Placed(pids[..], langs[..], if types then kinds[..] else [], types, n)
      invariant more ==> ParseTokens(Tokens(s), max, default, types) == done + ParseTokens(Tokens(rest), max - n, default, types)
      invariant !more ==> ParseTokens(Tokens(s), max, default, types) == done
      decreases |rest|, more
    {
      ParseTokensStep(rest, max - n, default, types);
      var (q, r) := StrTok(rest);
      if q.None? {
        more := false;
      } else {
        if n < max {
          PlacePid(q.value, pids, langs, kinds, default, n);
          ghost var t, tail := ParseTrack(q.value, default, types), ParseTokens(Tokens(r), max - n - 1, default, types);
          Moved(done, t, tail);
          done := done + [t];
          n := n + 1;
        }
        rest := r;
      }
    }
    EndPids(pids, langs, kinds, n);
  }

  lemma ParseIdsStep(s: string, n: nat)
    ensures var (q, r) := StrTok(s);
      ParseIds(Tokens(s), n)
      == if q.None? || n >= 12 then []
         else
           var id := StrToL(q.value, 16) % 0x1_0000;
           [id] + if n == 0 && id <= 0xFF then [] else ParseIds(Tokens(r), n + 1)
    ensures n >= 12 ==> ParseIds(Tokens(StrTok(s).1), n) == []
  {
    StrTokTokens(s);
    hide StrTok, Tokens, StrToL;
  }

  lemma {:induction false} NonZeroIs(ids: seq<int>, z: nat)
    requires z <= |ids| && (z < |ids| ==> ids[z] == 0) && forall i :: 0 <= i < z ==> ids[i] != 0
    ensures NonZero(ids) == ids[..z]
    decreases z
  {
    if z > 0 {
      NonZeroIs(ids[1..], z - 1);
      assert [ids[0]] + ids[1..][..z - 1] == ids[..z];
    }
  }

  /** A zero behind the first `n` ids ends them. */
  lemma IdsEnd(p: seq<int>, n: nat)
    requires n < |p| && p[n] == 0
    ensures FirstZero(p) <= n && Ids(p) == NonZero(p[..n])
  {
    var z := FirstZero(p);
    assert z <= n;
    hide FirstZero;
    NonZeroIs(p[..n], z);
    assert p[..n][..z] == p[..z];
  }

  /** One token into place `n`. */
  method ParseCaid(q: string, caids: array<int>, n: nat)
    requires caids.Length == 13 && n < 12
    modifies caids
    ensures caids[..n + 1] == old(caids[..n]) + [StrToL(q, 16) % 0x1_0000]
  {
    hide StrToL;
    caids[n] := StrToL(q, 16) % 0x1_0000;
  }

  lemma ParseIdsFrom(s: string, n: nat, done: seq<int>)
    requires n < 12 && StrTok(s).0.Some?
    ensures var (q, r) := StrTok(s);
      var id := StrToL(q.value, 16) % 0x1_0000;
      done + ParseIds(Tokens(s), n)
      == (done + [id]) + if n == 0 && id <= 0xFF then [] else ParseIds(Tokens(r), n + 1)
  {
    ParseIdsStep(s, n);
    hide StrTok, Tokens, StrToL, ParseIds;
  }

  /** The loop over the tokens of the conditional access field, left after a first id for a
      single device. */
  method ParseCaids(s: string, caids: array<int>)
    requires caids.Length == 13
    modifies caids
    ensures FirstZero(caids[..]) < 13
    ensures Ids(caids[..]) == ParseCa(s)
  {
    hide StrTok, Tokens, ParseIds, FirstZero, StrToL;
    var n, rest, more := 0, s, true;
    while more
      invariant n <= 12
      invariant ParseIds(Tokens(s), 0) == caids[..n] + if more then ParseIds(Tokens(rest), n) else []
      decreases |rest|, more
    {
      ParseIdsStep(rest, n);
      var (q, r) := StrTok(rest);
      if q.None? {
        more := false;
      } else {
        if n < 12 {
          ParseIdsFrom(rest, n, caids[..n]);
          ParseCaid(q.value, caids, n);
          n := n + 1;
          more := !(n == 1 && caids[0] <= 0xFF);
        }
        rest := r;
      }
    }
    assert ParseIds(Tokens(s), 0) == caids[..n];
    caids[n] := 0;
    IdsEnd(caids[..], n);
    assert caids[..][..n] == caids[..n];
  }

  // ---------------------------------------------------------------------------
  // The channel
  // ---------------------------------------------------------------------------

  function Stored(c: Record, vs: seq<Value>): Record
    requires Typed(vs)
  {
    c.(frequency := if |vs| > 1 then vs[1].n else c.frequency, srate := if |vs| > 4 then vs[4].n else c.srate,
       sid := if |vs| > 9 then vs[9].n else c.sid, nid := if |vs| > 10 then vs[10].n else c.nid,
       tid := if |vs| > 11 then vs[11].n else c.tid, rid := if |vs| > 12 then vs[12].n else c.rid)
  }

  /** The record after every field but the names was stored. */
  function Filled(base: Record, vs: seq<Value>, k: Sources): Record
    requires Typed(vs) && |vs| >= 9
    requires ParseVideo(vs[5].s).Some? && ScanInt(Cut(vs[7].s, ';').0).Some? && ParseIdsAndSid(vs).Some?
  {
    Stored(base, vs).(
      caids := ParseIdsAndSid(vs).value.0, sid := ParseIdsAndSid(vs).value.1,
      separator := false, parameters := vs[2].s, source := (k.parse)(vs[3].s),
      video := ParseVideo(vs[5].s).value,
      apids := ParseList(Cut(vs[6].s, ';').0, 32, 4, true), dpids := ParseSecond(Cut(vs[6].s, ';').1, 16, 0x6A, true),
      tpid := ScanInt(Cut(vs[7].s, ';').0).value, spids := ParseSecond(Cut(vs[7].s, ';').1, 32, 0, false))
  }

  lemma FilledIsParsed(base: Record, vs: seq<Value>, k: Sources)
    requires Typed(vs) && |vs| >= 9
    requires ParseVideo(vs[5].s).Some? && ScanInt(Cut(vs[7].s, ';').0).Some? && ParseIdsAndSid(vs).Some?
    ensures var c := ParseName(Filled(base, vs, k), vs[0].s);
      ParseValues(base, vs, k) == if (k.parse)(vs[3].s) >= 0 && IdValid(c, k) then Some(c) else None
  {
    hide Cut, CutLast, ParseVideo, ScanInt, ParseList, ParseSecond, Replace, IdValid, ParseIdsAndSid;
  }

  class Channel {
    var name: string
    var shortName: string
    var provider: string
    var frequency: int
    var parameters: string
    var source: int
    var srate: int
    var vpid: int
    var ppid: int
    var vtype: int
    const apids: array<int>
    const atypes: array<int>
    const alangs: array<string>
    const dpids: array<int>
    const dtypes: array<int>
    const dlangs: array<string>
    const spids: array<int>
    const slangs: array<string>
    var tpid: int
    const caids: array<int>
    var nid: int
    var tid: int
    var sid: int
    var rid: int
    var number: int
    var groupSep: bool

    /** The arrays are separate, and each list ends with a zero. */
    ghost predicate Valid()
      reads apids, dpids, spids, caids
    {
      && apids.Length == 33 && atypes.Length == 33 && alangs.Length == 32
      && dpids.Length == 17 && dtypes.Length == 33 && dlangs.Length == 16
      && spids.Length == 33 && slangs.Length == 32 && caids.Length == 13
      && apids != atypes && apids != dpids && apids != dtypes && apids != spids && apids != caids
      && atypes != dpids && atypes != dtypes && atypes != spids && atypes != caids
      && dpids != dtypes && dpids != spids && dpids != caids
      && dtypes != spids && dtypes != caids && spids != caids
      && alangs != dlangs && alangs != slangs && dlangs != slangs
      && FirstZero(apids[..]) <= 32 && FirstZero(dpids[..]) <= 16 && FirstZero(spids[..]) <= 32
      && FirstZero(caids[..]) <= 12
    }

    /** Audio, Dolby and subtitle entries, and conditional access ids. */
    ghost function Lists(): (seq<Track>, seq<Track>, seq<Track>, seq<int>)
      requires Valid()
      reads apids, atypes, alangs, dpids, dtypes, dlangs, spids, slangs, caids
    {
      (Entries(apids[..], alangs[..], atypes[..], true), Entries(dpids[..], dlangs[..], dtypes[..], true),
       Entries(spids[..], slangs[..], [], false), Ids(caids[..]))
    }

    /** The channel as the line shows it. */
    ghost function Contents(): Record
      requires Valid()
      reads this, apids, atypes, alangs, dpids, dtypes, dlangs, spids, slangs, caids
    {
      Record(groupSep, number, name, shortName, provider, frequency, parameters, source, srate, Video(vpid, ppid, vtype),
             Lists().0, Lists().1, tpid, Lists().2, Lists().3, sid, nid, tid, rid)
    }

    /** An empty channel. */
    constructor ()
      ensures Valid()
      ensures fresh(apids) && fresh(atypes) && fresh(alangs) && fresh(dpids) && fresh(dtypes) && fresh(dlangs)
      ensures fresh(spids) && fresh(slangs) && fresh(caids)
      ensures Contents() == Record(false, 0, "", "", "", 0, "", 0, 0, Video(0, 0, 0), [], [], 0, [], [], 0, 0, 0, 0)
    {
      name, shortName, provider, parameters := "", "", "", "";
      frequency, source, srate, vpid, ppid, vtype, tpid, nid, tid, sid, rid, number := 0, 0, 0, 0, 0, 0, 0, 0, 0, 0, 0, 0;
      groupSep := false;
      apids, atypes, alangs := new int[33](_ => 0), new int[33](_ => 0), new string[32](_ => "");
      dpids, dtypes, dlangs := new int[17](_ => 0), new int[33](_ => 0), new string[16](_ => "");
      spids, slangs, caids := new int[33](_ => 0), new string[32](_ => ""), new int[13](_ => 0);
    }

    // -------------------------------------------------------------------------
    // Printing
    // -------------------------------------------------------------------------

    method NameBuffer() returns (q: string)
      requires Valid()
      ensures q == NameText(Contents())
    {
      hide Replace, IsEmpty, Lists;
      q := name;
      if !IsEmpty(shortName) {
        q := q + ("," + shortName);
      } else if Find(name, ',') < |name| {
        q := q + ",";
      }
      if !IsEmpty(provider) {
        q := q + (";" + provider);
      }
      q := Replace(q, ':', '|');
    }

    /** Each part goes into what is left of the buffer. */
    method VideoBuffer() returns (q: string)
      requires Valid()
      ensures q == VideoField(Contents().video)
    {
      hide Dec, Entries, Ids, Kept;
      q := Kept(Dec(vpid));
      ghost var text := Dec(vpid);
      if ppid != 0 && ppid != vpid {
        KeptBehind(text, "+" + Dec(ppid));
        q := Kept(q + ("+" + Dec(ppid)));
        text := text + ("+" + Dec(ppid));
      }
      if vpid != 0 && vtype != 0 {
        KeptBehind(text, "=" + Dec(vtype));
        q := Kept(q + ("=" + Dec(vtype)));
        text := text + ("=" + Dec(vtype));
      }
      assert text == VideoText(Contents().video);
    }

    method AudioBuffer() returns (q: string)
      requires Valid() && |AudioText(Contents())| < 922
      ensures q == AudioText(Contents())
    {
      hide PrintList, Entries, Ids;
      q := PrintPids(apids, alangs, atypes);
      if dpids[0] != 0 {
        var d := PrintPids(dpids, dlangs, dtypes);
        q := q + (";" + d);
      }
    }

    method SubtitleBuffer() returns (q: string)
      requires Valid() && |SubtitleText(Contents())| < 458
      ensures q == SubtitleText(Contents())
    {
      hide PrintList, Entries, Ids, Dec;
      q := Dec(tpid);
      if spids[0] != 0 {
        var d := PrintPids(spids, slangs, null);
        q := q + (";" + d);
      }
    }

    /** Prints the channel's line; the lists must fit into their buffers. */
    method ToText(k: Sources) returns (buffer: string)
      requires Valid() && (groupSep || ListsFit(Contents()))
      ensures buffer == ChannelLine.ToText(Contents(), k)
    {
      hide NameText, VideoField, AudioText, SubtitleText, CaText, Dec, Entries, Ids, FirstZero;
      var fullName := NameBuffer();
      if groupSep {
        if number != 0 {
          buffer := ":@" + Dec(number) + " " + fullName + "\n";
        } else {
          buffer := ":" + fullName + "\n";
        }
      } else {
        var vpidbuf := VideoBuffer();
        var apidbuf := AudioBuffer();
        var tpidbuf := SubtitleBuffer();
        var caidbuf := PrintIds(caids);
        buffer := ShowAll([Text(fullName), Number(frequency), Text(parameters), Text((k.show)(source)), Number(srate),
                           Text(vpidbuf), Text(apidbuf), Text(tpidbuf), Text(caidbuf),
                           Number(sid), Number(nid), Number(tid), Number(rid)]);
      }
    }

    // -------------------------------------------------------------------------
    // Parsing
    // -------------------------------------------------------------------------

    /** The name buffer: the provider is behind the first semicolon, and the short name behind
        the last comma in front of it. */
    method ParseNames(text: string)
      requires Valid()
      modifies this`name, this`shortName, this`provider
      ensures Contents() == ParseName(old(Contents()), text)
    {
      hide Cut, CutLast, Replace, Lists, Valid;
      var (long, p) := Cut(Replace(text, '|', ':'), ';');
      if p.Some? {
        provider := p.value;
      }
      var (n, short) := CutLast(long, ',');
      if short.Some? {
        shortName := short.value;
      }
      name := n;
    }

    method ScanVideo(text: string) returns (ok: bool)
      modifies this`vpid, this`ppid, this`vtype
      ensures ok == ParseVideo(text).Some?
      ensures ok ==> Video(vpid, ppid, vtype) == ParseVideo(text).value
    {
      hide Cut, ScanInt;
      vpid, ppid, vtype := 0, 0, 0;
      var (front, kind) := Cut(text, '=');
      if kind.Some? {
        var v := ScanInt(kind.value);
        if v.None? {
          return false;
        }
        vtype := v.value;
      }
      var (pid, clock) := Cut(front, '+');
      if clock.Some? {
        var v := ScanInt(clock.value);
        if v.None? {
          return false;
        }
        ppid := v.value;
      }
      var v := ScanInt(pid);
      if v.None? {
        return false;
      }
      vpid := v.value;
      if ppid == 0 {
        ppid := vpid;
      }
      if vpid != 0 && vtype == 0 {
        vtype := 2;
      }
      return true;
    }

    method ParseVideoField(text: string) returns (ok: bool)
      requires Valid()
      modifies this`vpid, this`ppid, this`vtype
      ensures ok == ParseVideo(text).Some?
      ensures ok ==> Contents() == old(Contents()).(video := ParseVideo(text).value)
    {
      hide ParseVideo, Lists, Valid;
      ok := ScanVideo(text);
    }

    /** The separator's number and name, without its colon. */
    method ParseGroup(text: string)
      requires Valid()
      modifies this`groupSep, this`number, this`name
      ensures Contents() == ParseSeparator(old(Contents()), text)
    {
      hide ScanNumber, SkipSpace, Replace, Lists, Valid;
      groupSep := true;
      var s := text;
      if s != "" && s[0] == '@' {
        s := s[1..];
        match ScanNumber(s, 10) {
          case None =>
          case Some(r) =>
            if r.0 > 0 {
              number := r.0;
              s := r.1;
            }
        }
      }
      name := Replace(SkipSpace(s), '|', ':');
    }

    /** The audio PIDs, and the Dolby PIDs behind the semicolon. */
    method ParseAudio(text: string)
      requires Valid()
      modifies apids, atypes, alangs, dpids, dtypes, dlangs
      ensures Valid()
      ensures Contents() == old(Contents()).(apids := ParseList(Cut(text, ';').0, 32, 4, true),
                                             dpids := ParseSecond(Cut(text, ';').1, 16, 0x6A, true))
    {
      hide Cut, ParseList, Entries, Ids, FirstZero;
      var (front, second) := Cut(text, ';');
      ParsePids(front, apids, alangs, atypes, 4);
      if second.Some? {
        ParsePids(second.value, dpids, dlangs, dtypes, 0x6A);
      } else {
        dpids[0], dtypes[0] := 0, 0;
        EmptyEntries(dpids[..], dlangs[..], dtypes[..], true);
      }
    }

    /** The teletext PID, and the subtitle PIDs behind the semicolon. */
    method ParseSubtitles(text: string) returns (ok: bool)
      requires Valid()
      modifies this`tpid, spids, slangs
      ensures Valid()
      ensures ok == ScanInt(Cut(text, ';').0).Some?
      ensures ok ==> Contents() == old(Contents()).(tpid := ScanInt(Cut(text, ';').0).value,
                                                    spids := ParseSecond(Cut(text, ';').1, 32, 0, false))
    {
      hide Cut, ParseList, Entries, Ids, FirstZero, ScanInt;
      var (front, second) := Cut(text, ';');
      if second.Some? {
        ParsePids(second.value, spids, slangs, null, 0);
      } else {
        spids[0] := 0;
        EmptyEntries(spids[..], slangs[..], [], false);
      }
      var t := ScanInt(front);
      ok := t.Some?;
      if ok {
        tpid := t.value;
      }
    }

    /** The conditional access ids, in the new format or the old one. */
    method ParseAccess(vs: seq<Value>) returns (ok: bool)
      requires Valid() && Typed(vs) && |vs| >= 9 && (|vs| > 9 ==> sid == vs[9].n)
      modifies this`sid, caids
      ensures Valid()
      ensures ok == ParseIdsAndSid(vs).Some?
      ensures ok ==> Contents() == old(Contents()).(caids := ParseIdsAndSid(vs).value.0, sid := ParseIdsAndSid(vs).value.1)
    {
      hide ParseCa, Entries, FirstZero, ScanInt, StrToL, NonZero;
      ok := true;
      if |vs| == 9 {
        sid := StrToL(vs[8].s, 10);
        var id := ScanInt(vs[7].s);
        if id.None? {
          return false;
        }
        caids[0], caids[1] := id.value, 0;
        OneId(caids[..]);
      } else {
        ParseCaids(vs[8].s, caids);
      }
    }

    method StoreIds(vs: seq<Value>)
      requires Typed(vs)
      modifies this`sid, this`nid, this`tid, this`rid
      ensures sid == if |vs| > 9 then vs[9].n else old(sid)
      ensures nid == if |vs| > 10 then vs[10].n else old(nid)
      ensures tid == if |vs| > 11 then vs[11].n else old(tid)
      ensures rid == if |vs| > 12 then vs[12].n else old(rid)
    {
      sid := if |vs| > 9 then vs[9].n else sid;
      nid := if |vs| > 10 then vs[10].n else nid;
      tid := if |vs| > 11 then vs[11].n else tid;
      rid := if |vs| > 12 then vs[12].n else rid;
    }

    method StoreTuning(vs: seq<Value>)
      requires Typed(vs)
      modifies this`frequency, this`srate
      ensures frequency == if |vs| > 1 then vs[1].n else old(frequency)
      ensures srate == if |vs| > 4 then vs[4].n else old(srate)
    {
      frequency := if |vs| > 1 then vs[1].n else frequency;
      srate := if |vs| > 4 then vs[4].n else srate;
    }

    /** The numbers `sscanf` stores by itself. */
    method StoreNumbers(vs: seq<Value>)
      requires Valid() && Typed(vs)
      modifies this`frequency, this`srate, this`sid, this`nid, this`tid, this`rid
      ensures Contents() == Stored(old(Contents()), vs)
      ensures |vs| > 9 ==> sid == vs[9].n
    {
      hide Lists, Valid;
      StoreTuning(vs);
      StoreIds(vs);
    }

    method StoreSource(vs: seq<Value>, k: Sources)
      requires Valid() && Typed(vs) && |vs| >= 9
      modifies this`groupSep, this`parameters, this`source
      ensures Contents() == old(Contents()).(separator := false, parameters := vs[2].s, source := (k.parse)(vs[3].s))
      ensures source == (k.parse)(vs[3].s)
    {
      hide Lists, Valid;
      groupSep := false;
      parameters := vs[2].s;
      source := (k.parse)(vs[3].s);
    }

    /** `GetChannelID().Valid()` */
    method HasValidId(k: Sources) returns (valid: bool)
      requires Valid()
      ensures valid == IdValid(Contents(), k)
    {
      hide Lists, Valid;
      var t := if nid != 0 || tid != 0 then tid else (k.transponder)(source, frequency, parameters);
      valid := (nid != 0 || t != 0) && sid != 0;
    }

    /** The fields behind a successful `sscanf`. */
    method ParseFields(vs: seq<Value>, k: Sources) returns (ok: bool)
      requires Valid() && Typed(vs) && |vs| >= 9
      modifies this, apids, atypes, alangs, dpids, dtypes, dlangs, spids, slangs, caids
      ensures Valid()
      ensures ok == ParseValues(old(Contents()), vs, k).Some?
      ensures ok ==> Contents() == ParseValues(old(Contents()), vs, k).value
    {
      hide Contents, Valid, ParseName, ParseVideo, ParseIdsAndSid, Cut, ScanInt, ParseList, ParseSecond, IdValid;
      StoreNumbers(vs);
      ok := ParseAccess(vs);
      if !ok {
        return;
      }
      StoreSource(vs, k);
      ok := ParseVideoField(vs[5].s);
      if !ok {
        return;
      }
      ParseAudio(vs[6].s);
      ok := ParseSubtitles(vs[7].s);
      if !ok {
        return;
      }
      ParseNames(vs[0].s);
      FilledIsParsed(old(Contents()), vs, k);
      var valid := HasValidId(k);
      ok := source >= 0 && valid;
    }

    /** Parses a line. */
    method Parse(s: string, k: Sources) returns (ok: bool)
      requires Valid()
      modifies this, apids, atypes, alangs, dpids, dtypes, dlangs, spids, slangs, caids
      ensures Valid()
      ensures ok == Parsed(old(Contents()), s, k).Some?
      ensures ok ==> Contents() == Parsed(old(Contents()), s, k).value
    {
      hide Contents, Valid, ParseSeparator, ParseValues, Scanf, Format;
      if s != "" && s[0] == ':' {
        ParseGroup(s[1..]);
        return true;
      }
      var vs := Scanf(s, Format());
      ScanfTyped(s);
      if |vs| < 9 {
        StoreNumbers(vs);
        return false;
      }
      ok := ParseFields(vs, k);
    }
  }

  lemma EmptyEntries(p: seq<int>, l: seq<string>, k: seq<int>, types: bool)
    requires p != [] && p[0] == 0
    ensures FirstZero(p) == 0 && Entries(p, l, k, types) == []
  {
  }

  lemma OneId(p: seq<int>)
    requires |p| > 1 && p[1] == 0
    ensures FirstZero(p) <= 1 && Ids(p) == NonZero([p[0]])
  {
    IdsEnd(p, 1);
    assert p[..1] == [p[0]];
  }
}
