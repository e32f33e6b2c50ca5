/** A channel as one line of `channels.conf`: printing it, parsing it, and when the second
    undoes the first. */
module ChannelLine {
  import opened Common
  import opened ChannelText

  /** The fields a line holds. A zero-terminated array is the list of its entries. */
  datatype Record = Record(
    separator: bool, number: int,
    name: string, shortName: string, provider: string,
    frequency: int, parameters: string, source: int, srate: int,
    video: Video, apids: seq<Track>, dpids: seq<Track>, tpid: int, spids: seq<Track>,
    caids: seq<int>, sid: int, nid: int, tid: int, rid: int)

  datatype Video = Video(pid: int, clock: int, kind: int)

  /** What `cSource` and `cChannel::Transponder` compute, which are not part of this model:
      a source as text and back, where a negative number means no source, and the
      transponder that stands in for a missing transport stream id. */
  datatype Sources = Sources(show: int -> string, parse: string -> int, transponder: (int, int, string) -> int)

  // ---------------------------------------------------------------------------
  // Pieces of text
  // ---------------------------------------------------------------------------

  function Replace(s: string, a: char, b: char): (r: string)
    ensures |r| == |s| && forall i :: 0 <= i < |s| ==> r[i] == if s[i] == a then b else s[i]
  {
    if s == "" then "" else [if s[0] == a then b else s[0]] + Replace(s[1..], a, b)
  }

  lemma ReplaceBack(s: string, a: char, b: char)
    requires b !in s && a != b
    ensures Replace(Replace(s, a, b), b, a) == s && a !in Replace(s, a, b)
  {
  }

  /** The text in front of the first `c`, and the text behind it if there is one. */
  function Cut(s: string, c: char): (string, Option<string>) {
    var i := Find(s, c);
    (s[..i], if i < |s| then Some(s[i + 1..]) else None)
  }

  /** The same for the last one. */
  function CutLast(s: string, c: char): (string, Option<string>) {
    var i := FindLast(s, c);
    (s[..i], if i < |s| then Some(s[i + 1..]) else None)
  }

  lemma CutBack(a: string, c: char, b: string)
    requires c !in a
    ensures Cut(a, c) == (a, None) && Cut(a + [c] + b, c) == (a, Some(b))
  {
    FindBack(a, c, b);
    assert a[..|a|] == a;
  }

  lemma CutLastBack(a: string, c: char, b: string)
    requires c !in b
    ensures CutLast(b, c) == (b, None) && CutLast(a + [c] + b, c) == (a, Some(b))
  {
    FindLastBack(a, c, b);
    assert b[..|b|] == b;
  }

  // ---------------------------------------------------------------------------
  // Names
  // ---------------------------------------------------------------------------

  function LongName(name: string, shortName: string): string {
    name + if !IsEmpty(shortName) then "," + shortName else if ',' in name then "," else ""
  }

  function FullName(c: Record): string {
    LongName(c.name, c.shortName) + if !IsEmpty(c.provider) then ";" + c.provider else ""
  }

  /** `FullName` with its colons replaced. */
  function NameText(c: Record): string {
    Replace(FullName(c), ':', '|')
  }

  function ParseName(c: Record, text: string): Record {
    var (long, provider) := Cut(Replace(text, '|', ':'), ';');
    var (name, short) := CutLast(long, ',');
    c.(name := name,
       shortName := if short.Some? then short.value else c.shortName,
       provider := if provider.Some? then provider.value else c.provider)
  }

  predicate NameNormal(c: Record) {
    && FullName(c) != ""
    && ';' !in c.name && '|' !in c.name
    && ',' !in c.shortName && ';' !in c.shortName && '|' !in c.shortName && (c.shortName == "" || !IsEmpty(c.shortName))
    && '|' !in c.provider && (c.provider == "" || !IsEmpty(c.provider))
  }

  lemma LongNameBack(name: string, shortName: string)
    requires ',' !in shortName && (shortName == "" || !IsEmpty(shortName))
    ensures CutLast(LongName(name, shortName), ',')
         == (name, if shortName == "" && ',' !in name then None else Some(shortName))
  {
    hide CutLast;
    CutLastBack(name, ',', shortName);
    assert IsEmpty("");
    assert name + ("," + shortName) == name + [','] + shortName;
    assert name + "," == name + [','] + "" && name + "" == name;
    if ',' !in name {
      CutLastBack("", ',', name);
    }
    assert shortName == "" ==> name + "," + shortName == name + ",";
  }

  lemma FullNameCuts(c: Record)
    requires NameNormal(c)
    ensures Cut(FullName(c), ';') == (LongName(c.name, c.shortName), if c.provider == "" then None else Some(c.provider))
    ensures '|' !in FullName(c)
  {
    var long := LongName(c.name, c.shortName);
    assert ';' !in long && '|' !in long;
    assert IsEmpty("");
    hide Cut, LongName, IsEmpty;
    CutBack(long, ';', c.provider);
    assert long + (";" + c.provider) == long + [';'] + c.provider;
    assert long + "" == long;
  }

  /** Names come back, also when the name holds commas or colons. */
  lemma NameBack(c: Record, base: Record)
    requires NameNormal(c) && base.shortName == "" && base.provider == ""
    ensures ParseName(base, NameText(c)) == base.(name := c.name, shortName := c.shortName, provider := c.provider)
    ensures ':' !in NameText(c) && NameText(c) != ""
  {
    hide Cut, CutLast, IsEmpty, LongName, Replace, FullName;
    FullNameCuts(c);
    ReplaceBack(FullName(c), ':', '|');
    LongNameBack(c.name, c.shortName);
  }

  // ---------------------------------------------------------------------------
  // The PID fields
  // ---------------------------------------------------------------------------

  /** The video field before it is cut to its buffer. */
  function VideoText(v: Video): string {
    FrontText(v) + if v.pid != 0 && v.kind != 0 then "=" + Dec(v.kind) else ""
  }

  /** What `snprintf` leaves in a buffer of 32 characters, one of which ends the text. */
  function Kept(s: string): string {
    if |s| < 32 then s else s[..31]
  }

  /** Printing in parts gives the same. */
  lemma KeptBehind(a: string, b: string)
    ensures Kept(Kept(a) + b) == Kept(a + b)
  {
  }

  /** The video field. */
  function VideoField(v: Video): string {
    Kept(VideoText(v))
  }

  /** `sscanf` with `%d` alone. */
  function ScanInt(s: string): Option<int> {
    match ScanNumber(s, 10)
    case None => None
    case Some(r) => Some(r.0)
  }

  /** An optional number behind a delimiter: zero if there is none. */
  function ScanOptional(t: Option<string>): Option<int> {
    if t.None? then Some(0) else ScanInt(t.value)
  }

  function ParseVideo(s: string): Option<Video> {
    var (front, kind) := Cut(s, '=');
    var (pid, clock) := Cut(front, '+');
    var k, c, p := ScanOptional(kind), ScanOptional(clock), ScanInt(pid);
    if k.None? || c.None? || p.None? then None
    else
      Some(Video(p.value,
                 if c.value == 0 then p.value else c.value,
                 if p.value != 0 && k.value == 0 then 2 else k.value))
  }

  /** The video field loses exactly a zero clock PID and a type that is missing or has no PID. */
  predicate VideoNormal(v: Video) {
    && (v.clock != 0 || v.pid == 0)
    && (v.kind != 0 <==> v.pid != 0)
  }

  lemma DecScans(n: int)
    ensures ScanInt(Dec(n)) == Some(n)
  {
    DecBack(n, "");
    assert Dec(n) + "" == Dec(n);
  }

  /** The PID and the clock PID. */
  function FrontText(v: Video): string {
    Dec(v.pid) + if v.clock != 0 && v.clock != v.pid then "+" + Dec(v.clock) else ""
  }

  lemma FrontCuts(v: Video)
    ensures Cut(FrontText(v), '+') == (Dec(v.pid), if v.clock != 0 && v.clock != v.pid then Some(Dec(v.clock)) else None)
    ensures '=' !in FrontText(v)
  {
    var p, c := Dec(v.pid), Dec(v.clock);
    DecPlain(v.pid, '+');
    DecPlain(v.pid, '=');
    DecPlain(v.clock, '=');
    hide Dec, Cut;
    CutBack(p, '+', c);
    assert p + ("+" + c) == p + ['+'] + c;
    assert p + "" == p;
  }

  lemma VideoCuts(v: Video)
    ensures Cut(VideoText(v), '=') == (FrontText(v), if v.pid != 0 && v.kind != 0 then Some(Dec(v.kind)) else None)
  {
    var f, k := FrontText(v), Dec(v.kind);
    FrontCuts(v);
    hide Dec, Cut;
    CutBack(f, '=', k);
    assert f + ("=" + k) == f + ['='] + k;
    assert f + "" == f;
  }

  /** Parsing gives back the PID, with the defaults for what was not printed. */
  lemma VideoTextParses(v: Video)
    ensures ParseVideo(VideoText(v)) == Some(Video(
      v.pid, if v.clock == 0 then v.pid else v.clock,
      if v.pid == 0 then 0 else if v.kind == 0 then 2 else v.kind))
  {
    hide Dec, Cut, ScanInt, VideoText, FrontText;
    VideoCuts(v);
    FrontCuts(v);
    DecScans(v.pid);
    DecScans(v.clock);
    DecScans(v.kind);
  }

  /** The values of the fields are 32-bit integers. */
  predicate Int32(n: int) {
    -0x8000_0000 <= n < 0x8000_0000
  }

  predicate VideoInts(v: Video) {
    Int32(v.pid) && Int32(v.clock) && Int32(v.kind)
  }

  lemma DecShort(n: int)
    requires Int32(n)
    ensures |Dec(n)| <= 11
  {
    DigitsShort(if n < 0 then -n else n, 10);
    assert Power10(10) == 1_00000_00000 by { PowerOfTen(); }
  }

  /** The front is short enough, so that the cut takes digits of the type only: it leaves
      some, and they make another number. */
  lemma VideoCutShort(v: Video) returns (k: int)
    requires VideoInts(v) && |VideoText(v)| >= 32
    ensures v.pid != 0 && v.kind != 0 && k != 0 && k != v.kind
    ensures VideoField(v) == VideoText(v.(kind := k))
  {
    DecShort(v.pid);
    DecShort(v.clock);
    DecShort(v.kind);
    hide Dec;
    var f, m := FrontText(v), 30 - |FrontText(v)|;
    assert |f| <= 23 && 7 <= m < |Dec(v.kind)|;
    k := DecPrefix(v.kind, m);
    assert VideoText(v) == f + "=" + Dec(v.kind);
    assert (f + "=" + Dec(v.kind))[..31] == f + "=" + Dec(v.kind)[..m];
    assert f + "=" + Dec(k) == f + ("=" + Dec(k));
  }

  /** A field that fits gives back the PID, with the defaults for what was not printed; one
      that does not gives back another type. */
  lemma VideoParses(v: Video)
    requires VideoInts(v)
    ensures |VideoText(v)| < 32 ==>
      ParseVideo(VideoField(v)) == Some(Video(
        v.pid, if v.clock == 0 then v.pid else v.clock,
        if v.pid == 0 then 0 else if v.kind == 0 then 2 else v.kind))
    ensures |VideoText(v)| >= 32 ==>
      ParseVideo(VideoField(v)).Some? && ParseVideo(VideoField(v)).value.kind != v.kind
  {
    hide ParseVideo, VideoText;
    if |VideoText(v)| < 32 {
      VideoTextParses(v);
    } else {
      var k := VideoCutShort(v);
      VideoTextParses(v.(kind := k));
    }
  }

  lemma VideoBackIff(v: Video)
    requires VideoInts(v)
    ensures ParseVideo(VideoField(v)) == Some(v) <==> VideoNormal(v) && |VideoText(v)| < 32
  {
    hide ParseVideo, VideoText;
    VideoParses(v);
  }

  lemma NineDigits()
    ensures Digits(123456789, 10) == "123456789"
  {
    hide Digits;
    DigitsStep(1, 10);
    OneDigitMore(1, 2);
    OneDigitMore(12, 3);
    OneDigitMore(123, 4);
    OneDigitMore(1234, 5);
    OneDigitMore(12345, 6);
    OneDigitMore(123456, 7);
    OneDigitMore(1234567, 8);
    OneDigitMore(12345678, 9);
  }

  /** Three numbers of ten digits lose the last digit. */
  lemma VideoLost()
    ensures var v := Video(1234567890, 1234567891, 1234567892);
      && VideoInts(v) && VideoNormal(v) && |VideoText(v)| == 32
      && ParseVideo(VideoField(v)) == Some(v.(kind := 123456789))
  {
    hide ParseVideo, Digits;
    var v, n := Video(1234567890, 1234567891, 1234567892), Digits(123456789, 10);
    NineDigits();
    OneDigitMore(123456789, 0);
    OneDigitMore(123456789, 1);
    OneDigitMore(123456789, 2);
    VideoTextParses(v.(kind := 123456789));
    var f, k := FrontText(v), Dec(v.kind);
    assert |f| == 21 && |k| == 10 && k[..9] == n;
    assert (f + ("=" + k))[..31] == f + ("=" + k[..9]);
  }

  /** Two lists in one field, the second behind a semicolon and only if it is not empty. */
  function ListsText(front: string, second: seq<Track>, types: bool): string {
    front + if second == [] then "" else ";" + PrintList(second, types)
  }

  function AudioText(c: Record): string {
    ListsText(PrintList(c.apids, true), c.dpids, true)
  }

  function SubtitleText(c: Record): string {
    ListsText(Dec(c.tpid), c.spids, false)
  }

  /** The list behind the semicolon. */
  function ParseSecond(t: Option<string>, max: nat, default: int, types: bool): seq<Track> {
    if t.None? then [] else ParseList(t.value, max, default, types)
  }

  predicate TracksPlain(ts: seq<Track>, max: nat, types: bool) {
    |ts| <= max && forall i :: 0 <= i < |ts| ==> TrackPlain(ts[i], types)
  }

  /** Every entry has a type. */
  predicate HasTypes(ts: seq<Track>) {
    forall i :: 0 <= i < |ts| ==> ts[i].kind != 0
  }

  lemma {:induction false} JoinPlain(ps: seq<string>, c: char)
    requires c != ',' && forall i :: 0 <= i < |ps| ==> c !in ps[i]
    ensures c !in Join(ps)
  {
    if |ps| > 1 {
      JoinPlain(ps[1..], c);
    }
  }

  lemma ListPlain(ts: seq<Track>, max: nat, types: bool, c: char)
    requires TracksPlain(ts, max, types) && (c == ';' || c == ':')
    ensures c !in PrintList(ts, types)
  {
    hide PrintTrack, TrackPlain;
    var ps := Printed(ts, types);
    forall i | 0 <= i < |ps|
      ensures c !in ps[i]
    {
      TrackIsToken(ts[i], types);
    }
    JoinPlain(ps, c);
  }

  /** Both parts of such a field come back. */
  lemma ListsBack(front: string, second: seq<Track>, max: nat, default: int, types: bool)
    requires ';' !in front && 0 < max && TracksPlain(second, max, types)
    ensures Cut(ListsText(front, second, types), ';').0 == front
    ensures ParseSecond(Cut(ListsText(front, second, types), ';').1, max, default, types) == AllWithDefault(second, default)
  {
    hide Cut, PrintList, ParseList, TrackPlain;
    var t := PrintList(second, types);
    CutBack(front, ';', t);
    assert front + ";" + t == front + (";" + t);
    assert front + "" == front;
    ListBack(second, max, default, types);
  }

  // ---------------------------------------------------------------------------
  // Conditional access
  // ---------------------------------------------------------------------------

  /** `%X` of a 32-bit integer. */
  function HexText(n: int): (s: string)
    ensures s != ""
  {
    Digits(n % 0x1_0000_0000, 16)
  }

  function Hex(ids: seq<int>): (s: seq<string>)
    ensures |s| == |ids|
  {
    seq(|ids|, i requires 0 <= i < |ids| => HexText(ids[i]))
  }

  function CaText(ids: seq<int>): string {
    if ids == [] then "0" else Join(Hex(ids))
  }

  /** After a first id for a single device, or for none, the rest is not read. */
  function ParseIds(qs: seq<string>, n: nat): seq<int>
    decreases |qs|
  {
    if qs == [] || n >= 12 then []
    else
      var id := StrToL(qs[0], 16) % 0x1_0000;
      [id] + if n == 0 && id <= 0xFF then [] else ParseIds(qs[1..], n + 1)
  }

  function NonZero(ids: seq<int>): seq<int> {
    if ids == [] || ids[0] == 0 then [] else [ids[0]] + NonZero(ids[1..])
  }

  function ParseCa(s: string): seq<int> {
    NonZero(ParseIds(Tokens(s), 0))
  }

  /** Ids as they can be stored: a zero ends the list, and sixteen bits are kept. */
  predicate IdsFit(ids: seq<int>) {
    |ids| <= 12 && forall i :: 0 <= i < |ids| ==> 0 < ids[i] <= 0xFFFF
  }

  lemma HexDigits(n: nat)
    requires n <= 0xFFFF
    ensures HexText(n) == Digits(n, 16)
  {
    hide Digits;
  }

  lemma HexToken(n: nat)
    ensures IsToken(Digits(n, 16)) && ':' !in Digits(n, 16)
  {
    assert DigitValue(',') == 99 && DigitValue(':') == 99;
    hide Digits, DigitValue;
  }

  lemma HexBack(n: nat)
    requires n <= 0xFFFF
    ensures StrToL(HexText(n), 16) % 0x1_0000 == n
    ensures IsToken(HexText(n)) && ':' !in HexText(n)
  {
    hide ScanNumber, Digits, HexText, IsToken;
    HexDigits(n);
    HexToken(n);
    NumberBack(n, 16, "");
    assert Digits(n, 16) + "" == Digits(n, 16);
  }

  lemma {:induction false} IdsBack(ids: seq<int>, n: nat)
    requires |ids| + n <= 12 && forall i :: 0 <= i < |ids| ==> 0 < ids[i] <= 0xFFFF
    ensures NonZero(ParseIds(Hex(ids), n)) == if n == 0 && ids != [] && ids[0] <= 0xFF then ids[..1] else ids
    decreases |ids|
  {
    hide HexText, StrToL, IsToken;
    if ids != [] {
      HexBack(ids[0]);
      assert Hex(ids)[1..] == Hex(ids[1..]);
      IdsBack(ids[1..], n + 1);
    }
  }

  /** The ids come back, except those behind a first one of at most 0xFF. */
  lemma CaParses(ids: seq<int>)
    requires IdsFit(ids)
    ensures ParseCa(CaText(ids)) == if ids != [] && ids[0] <= 0xFF then ids[..1] else ids
    ensures ':' !in CaText(ids) && CaText(ids) != ""
  {
    hide HexText, ParseIds;
    if ids == [] {
      HexBack(0);
      ZeroAlone();
    } else {
      var hs := Hex(ids);
      forall i | 0 <= i < |hs|
        ensures IsToken(hs[i]) && ':' !in hs[i]
      {
        HexBack(ids[i]);
      }
      JoinPlain(hs, ':');
      TokensBack(hs);
      IdsBack(ids, 0);
      assert CaText(ids) == "" ==> hs == [] by { TokensOfNothing(); }
    }
  }

  lemma ZeroAlone()
    ensures ParseCa("0") == []
  {
    assert IsToken("0");
    TokenAlone("0");
    assert StrToL("0", 16) % 0x1_0000 == 0;
    assert ParseIds(["0"], 0) == [0];
  }

  lemma CaBackIff(ids: seq<int>)
    requires IdsFit(ids)
    ensures ParseCa(CaText(ids)) == ids <==> |ids| <= 1 || ids[0] > 0xFF
  {
    CaParses(ids);
  }

  // ---------------------------------------------------------------------------
  // Lines
  // ---------------------------------------------------------------------------

  /** The format of `sscanf`: name, frequency, parameters, source, symbol rate, video PIDs,
      audio PIDs, teletext and subtitle PIDs, conditional access, and four ids. */
  function Format(): (f: seq<(Conversion, Separator)>)
    ensures |f| == 13
  {
    [(AnyText, Colon), (AnyNumber, SpaceColon), (AnyText, Colon), (AnyText, SpaceColon), (AnyNumber, SpaceColon),
     (AnyText, Colon), (AnyText, Colon), (AnyText, Colon), (AnyText, Colon),
     (AnyNumber, SpaceColon), (AnyNumber, SpaceColon), (AnyNumber, SpaceColon), (AnyNumber, Space)]
  }

  predicate Typed(vs: seq<Value>) {
    && |vs| <= 13
    && forall i :: 0 <= i < |vs| ==> (vs[i].Number? <==> i == 1 || i == 4 || i >= 9)
  }

  function Values(c: Record, k: Sources): (vs: seq<Value>)
    ensures |vs| == 13
  {
    [Text(NameText(c)), Number(c.frequency), Text(c.parameters), Text(k.show(c.source)), Number(c.srate),
     Text(VideoField(c.video)), Text(AudioText(c)), Text(SubtitleText(c)), Text(CaText(c.caids)),
     Number(c.sid), Number(c.nid), Number(c.tid), Number(c.rid)]
  }

  /** `ToText` */
  function ToText(c: Record, k: Sources): string
  {
    if !c.separator then ShowAll(Values(c, k))
    else if c.number != 0 then ":@" + Dec(c.number) + " " + NameText(c) + "\n"
    else ":" + NameText(c) + "\n"
  }

  function SkipAt(s: string): string {
    if s != "" && s[0] == '@' then s[1..] else s
  }

  /** A group separator, without its colon. */
  function ParseSeparator(base: Record, s: string): Record {
    var t := SkipAt(s);
    var n := ScanNumber(t, 10);
    var marked := s != "" && s[0] == '@' && n.Some? && n.value.0 > 0;
    base.(separator := true,
          number := if marked then n.value.0 else base.number,
          name := Replace(SkipSpace(if marked then n.value.1 else t), '|', ':'))
  }

  /** Whether the channel can be told from others by its id. */
  predicate IdValid(c: Record, k: Sources) {
    var tid := if c.nid != 0 || c.tid != 0 then c.tid else (k.transponder)(c.source, c.frequency, c.parameters);
    (c.nid != 0 || tid != 0) && c.sid != 0
  }

  /** The conditional access ids and the service id; the old format has a single id, where
      the teletext PID is, and ends with the service id. */
  function ParseIdsAndSid(vs: seq<Value>): Option<(seq<int>, int)>
    requires Typed(vs) && |vs| >= 9
  {
    if |vs| > 9 then Some((ParseCa(vs[8].s), vs[9].n))
    else
      match ScanInt(vs[7].s)
      case None => None
      case Some(id) => Some((NonZero([id]), StrToL(vs[8].s, 10)))
  }

  function ParseValues(base: Record, vs: seq<Value>, k: Sources): Option<Record>
    requires Typed(vs) && |vs| >= 9
  {
    var (apids, dpids) := Cut(vs[6].s, ';');
    var (tpid, spids) := Cut(vs[7].s, ';');
    var video, t, source, ids := ParseVideo(vs[5].s), ScanInt(tpid), (k.parse)(vs[3].s), ParseIdsAndSid(vs);
    if video.None? || t.None? || source < 0 || ids.None? then None
    else
      var c := ParseName(base, vs[0].s).(
        separator := false,
        frequency := vs[1].n, parameters := vs[2].s, source := source, srate := vs[4].n,
        video := video.value,
        apids := ParseList(apids, 32, 4, true), dpids := ParseSecond(dpids, 16, 0x6A, true),
        tpid := t.value, spids := ParseSecond(spids, 32, 0, false),
        caids := ids.value.0, sid := ids.value.1,
        nid := if |vs| > 10 then vs[10].n else base.nid,
        tid := if |vs| > 11 then vs[11].n else base.tid,
        rid := if |vs| > 12 then vs[12].n else base.rid);
      if IdValid(c, k) then Some(c) else None
  }

  /** `Parse`, called on `base`; nothing if it returns false. */
  function Parsed(base: Record, s: string, k: Sources): Option<Record> {
    if s != "" && s[0] == ':' then Some(ParseSeparator(base, s[1..]))
    else
      var vs := Scanf(s, Format());
      ScanfTyped(s);
      if |vs| < 9 then None else ParseValues(base, vs, k)
  }

  lemma ConvertTyped(s: string, c: Conversion)
    ensures var r := Convert(s, c); r.Some? ==> (r.value.0.Number? <==> c == AnyNumber)
  {
  }

  lemma {:induction false} ScanfFits(s: string, format: seq<(Conversion, Separator)>)
    ensures |Scanf(s, format)| <= |format|
    ensures forall i :: 0 <= i < |Scanf(s, format)| ==> (Scanf(s, format)[i].Number? <==> format[i].0 == AnyNumber)
    decreases |format|
  {
    hide Convert, Separate;
    if format != [] {
      ConvertTyped(s, format[0].0);
      var r := Convert(s, format[0].0);
      if r.Some? {
        var t := Separate(r.value.1, format[0].1);
        if t.Some? {
          ScanfFits(t.value, format[1..]);
        }
      }
    }
  }

  lemma ScanfTyped(s: string)
    ensures Typed(Scanf(s, Format()))
  {
    ScanfFits(s, Format());
    hide Scanf;
  }

  // ---------------------------------------------------------------------------
  // Round trips
  // ---------------------------------------------------------------------------

  predicate SourceNormal(c: Record, k: Sources) {
    c.source >= 0 && (k.parse)((k.show)(c.source)) == c.source
  }

  /** The lists fit into their buffers; the source has no test for it. */
  predicate ListsFit(c: Record) {
    |AudioText(c)| < 922 && |SubtitleText(c)| < 458 && |CaText(c.caids)| < 70
  }

  predicate BuffersFit(c: Record) {
    |VideoText(c.video)| < 32 && ListsFit(c)
  }

  /** A channel whose fields can all be told from its line. */
  predicate Normal(c: Record, k: Sources) {
    Plain(c, k) && HasTypes(c.apids) && HasTypes(c.dpids)
  }

  /** The same but for types of zero, which are not printed. */
  predicate Plain(c: Record, k: Sources) {
    Printable(c, k) && SourceNormal(c, k) && IdValid(c, k)
  }

  /** Whatever the source and the ids are, the fields can be told from the line. */
  predicate Printable(c: Record, k: Sources) {
    && !c.separator
    && NameNormal(c)
    && c.parameters != "" && ':' !in c.parameters
    && (k.show)(c.source) != "" && ':' !in (k.show)(c.source)
    && VideoInts(c.video) && VideoNormal(c.video) && BuffersFit(c)
    && TracksPlain(c.apids, 32, true) && TracksPlain(c.dpids, 16, true) && TracksPlain(c.spids, 32, false)
    && IdsFit(c.caids) && (|c.caids| <= 1 || c.caids[0] > 0xFF)
  }

  /** PIDs of up to five digits and types of up to four, as the sizes of the buffers expect. */
  predicate FewDigits(c: Record) {
    && 0 <= c.tpid < 1_00000
    && 0 <= c.video.pid < 1_00000 && 0 <= c.video.clock < 1_00000 && 0 <= c.video.kind < 1_00000
    && TracksShort(c.apids) && TracksShort(c.dpids) && TracksShort(c.spids)
  }

  predicate TracksShort(ts: seq<Track>) {
    forall i :: 0 <= i < |ts| ==> 0 <= ts[i].pid < 1_00000 && 0 <= ts[i].kind < 1_0000
  }

  lemma DecFew(n: int)
    ensures 0 <= n < 1_00000 ==> |Dec(n)| <= 5
    ensures 0 <= n < 1_0000 ==> |Dec(n)| <= 4
  {
    PowerOfTen();
    if 0 <= n < 1_00000 {
      DigitsShort(n, 5);
    }
    if 0 <= n < 1_0000 {
      DigitsShort(n, 4);
    }
  }

  lemma {:induction false} JoinShort(ps: seq<string>, k: nat)
    requires forall i :: 0 <= i < |ps| ==> |ps[i]| <= k
    ensures |Join(ps)| <= |ps| * (k + 1)
    decreases |ps|
  {
    if |ps| > 1 {
      JoinShort(ps[1..], k);
    }
  }

  lemma ListShort(ts: seq<Track>, max: nat, types: bool)
    requires TracksPlain(ts, max, types) && TracksShort(ts)
    ensures |PrintList(ts, types)| <= if ts == [] then 1 else |ts| * if types then 19 else 14
  {
    hide Dec;
    var ps := Printed(ts, types);
    forall i | 0 <= i < |ps|
      ensures |ps[i]| <= if types then 18 else 13
    {
      DecFew(ts[i].pid);
      DecFew(ts[i].kind);
    }
    JoinShort(ps, if types then 18 else 13);
  }

  /** With few digits every list of a normal channel fits, up to its limit of entries. */
  lemma FewDigitsFit(c: Record)
    requires TracksPlain(c.apids, 32, true) && TracksPlain(c.dpids, 16, true) && TracksPlain(c.spids, 32, false)
    requires IdsFit(c.caids) && FewDigits(c)
    ensures BuffersFit(c)
  {
    ListShort(c.apids, 32, true);
    ListShort(c.dpids, 16, true);
    ListShort(c.spids, 32, false);
    DecFew(c.tpid);
    DecFew(c.video.pid);
    DecFew(c.video.clock);
    DecFew(c.video.kind);
    IdsShort(c.caids);
    hide Dec, PrintList, CaText, TracksPlain, TracksShort;
  }

  lemma IdsShort(ids: seq<int>)
    requires IdsFit(ids)
    ensures |CaText(ids)| <= 60
  {
    hide Digits;
    var hs := Hex(ids);
    forall i | 0 <= i < |hs|
      ensures |hs[i]| <= 4
    {
      HexShort(ids[i]);
    }
    HexShort(0);
    JoinShort(hs, 4);
  }

  lemma HexShort(n: nat)
    requires n <= 0xFFFF
    ensures |HexText(n)| <= 4
  {
    HexDigits(n);
    DigitsStep(n, 16);
    DigitsStep(n / 16, 16);
    DigitsStep(n / 16 / 16, 16);
    DigitsStep(n / 16 / 16 / 16, 16);
    hide Digits, HexText;
  }

  lemma VideoPlain(v: Video)
    ensures ':' !in VideoField(v) && VideoField(v) != ""
  {
    DecPlain(v.pid, ':');
    DecPlain(v.clock, ':');
    DecPlain(v.kind, ':');
  }

  lemma ListsPlain(front: string, second: seq<Track>, max: nat, types: bool)
    requires ':' !in front && front != "" && TracksPlain(second, max, types)
    ensures ':' !in ListsText(front, second, types) && ListsText(front, second, types) != ""
  {
    ListPlain(second, max, types, ':');
    hide PrintList;
  }

  lemma PrintedSome(ts: seq<Track>, max: nat, types: bool)
    requires TracksPlain(ts, max, types)
    ensures PrintList(ts, types) != ""
  {
    if ts != [] {
      TrackIsToken(ts[0], types);
      hide PrintTrack, TrackPlain;
      assert Printed(ts, types)[0] != "";
    }
  }

  lemma PidsMatch(c: Record)
    requires TracksPlain(c.apids, 32, true) && TracksPlain(c.dpids, 16, true) && TracksPlain(c.spids, 32, false)
    ensures Matches(Text(AudioText(c)), AnyText) && Matches(Text(SubtitleText(c)), AnyText)
    ensures ';' !in PrintList(c.apids, true) && ';' !in Dec(c.tpid)
  {
    hide PrintList, TracksPlain, Dec;
    ListPlain(c.apids, 32, true, ':');
    ListPlain(c.apids, 32, true, ';');
    PrintedSome(c.apids, 32, true);
    ListsPlain(PrintList(c.apids, true), c.dpids, 16, true);
    DecPlain(c.tpid, ':');
    DecPlain(c.tpid, ';');
    ListsPlain(Dec(c.tpid), c.spids, 32, false);
  }

  lemma NamesMatch(c: Record, k: Sources)
    requires Printable(c, k)
    ensures Matches(Text(NameText(c)), AnyText) && Matches(Text(c.parameters), AnyText)
    ensures Matches(Text((k.show)(c.source)), AnyText)
    ensures Matches(Text(VideoField(c.video)), AnyText) && Matches(Text(CaText(c.caids)), AnyText)
  {
    hide NameText, VideoText, VideoField, CaText, NameNormal, TracksPlain;
    NameBack(c, c.(shortName := "", provider := ""));
    VideoPlain(c.video);
    CaParses(c.caids);
  }

  lemma ValuesMatch(c: Record, k: Sources)
    requires Printable(c, k)
    ensures LineFormat(Format())
    ensures forall i :: 0 <= i < 13 ==> Matches(Values(c, k)[i], Format()[i].0)
  {
    hide NameText, VideoText, VideoField, AudioText, SubtitleText, CaText, NameNormal, VideoNormal, BuffersFit, TracksPlain, Matches;
    NamesMatch(c, k);
    PidsMatch(c);
    NumbersMatch();
  }

  lemma NumbersMatch()
    ensures forall n :: Matches(Number(n), AnyNumber)
  {
  }

  lemma PidsBack(c: Record)
    requires TracksPlain(c.apids, 32, true) && TracksPlain(c.dpids, 16, true) && TracksPlain(c.spids, 32, false)
    ensures var (a, d) := Cut(AudioText(c), ';');
            ParseList(a, 32, 4, true) == AllWithDefault(c.apids, 4)
            && ParseSecond(d, 16, 0x6A, true) == AllWithDefault(c.dpids, 0x6A)
    ensures var (t, s) := Cut(SubtitleText(c), ';');
            ScanInt(t) == Some(c.tpid) && ParseSecond(s, 32, 0, false) == c.spids
  {
    PidsMatch(c);
    DecScans(c.tpid);
    ListBack(c.apids, 32, 4, true);
    hide PrintList, ParseList, TrackPlain, Dec, Cut;
    ListsBack(PrintList(c.apids, true), c.dpids, 16, 0x6A, true);
    ListsBack(Dec(c.tpid), c.spids, 32, 0, false);
    NoDefault(c.spids, 0);
  }

  lemma ValuesBack(c: Record, base: Record, k: Sources)
    requires Printable(c, k) && base.shortName == "" && base.provider == ""
    ensures Typed(Values(c, k))
    ensures ParseValues(base, Values(c, k), k) == Accepted(c, base, k)
  {
    hide NameText, VideoText, VideoField, AudioText, SubtitleText, CaText, ParseName, ParseVideo, ParseList, ParseSecond,
      ParseCa, Cut, ScanInt, NameNormal, VideoNormal, ListsFit, TracksPlain, Typed;
    ValuesTyped(c, k);
    NameBack(c, base);
    VideoBackIff(c.video);
    PidsBack(c);
    CaBackIff(c.caids);
  }

  lemma ValuesTyped(c: Record, k: Sources)
    ensures Typed(Values(c, k))
  {
    hide NameText, VideoText, VideoField, AudioText, SubtitleText, CaText;
  }

  lemma LineParses(c: Record, base: Record, k: Sources)
    requires !c.separator && NameText(c) != "" && ':' !in NameText(c)
    requires Scanf(ShowAll(Values(c, k)), Format()) == Values(c, k) && Typed(Values(c, k))
    ensures Parsed(base, ToText(c, k), k) == ParseValues(base, Values(c, k), k)
  {
    hide NameText, ParseValues, Scanf, Typed;
    var vs := Values(c, k);
    assert ShowAll(vs) == NameText(c) + ":" + ShowAll(vs[1..]);
    assert ToText(c, k)[0] == NameText(c)[0];
  }

  /** The channel with the types parsing gives to entries without one. */
  function DefaultsFilled(c: Record): Record {
    c.(apids := AllWithDefault(c.apids, 4), dpids := AllWithDefault(c.dpids, 0x6A))
  }

  /** The line is refused if its source is unknown, if its service id is zero, or if neither
      network, stream nor transponder tell where the channel is. */
  function Accepted(c: Record, base: Record, k: Sources): Option<Record> {
    var source := (k.parse)((k.show)(c.source));
    if source < 0 || c.sid == 0
       || (c.nid == 0 && c.tid == 0 && (k.transponder)(source, c.frequency, c.parameters) == 0) then None
    else Some(DefaultsFilled(c).(number := base.number, source := source))
  }

  /** Which printed lines are accepted, and as what. */
  lemma PrintedParses(c: Record, base: Record, k: Sources)
    requires Printable(c, k) && base.shortName == "" && base.provider == ""
    ensures Parsed(base, ToText(c, k), k) == Accepted(c, base, k)
  {
    NameBack(c, base);
    hide Parsed, ParseValues, Values, Format, ShowAll, Scanf, Matches, Typed, ToText, NameText, NameNormal, Accepted;
    ValuesMatch(c, k);
    ScanfBack(Values(c, k), Format());
    ValuesBack(c, base, k);
    LineParses(c, base, k);
  }

  lemma PlainBack(c: Record, base: Record, k: Sources)
    requires Plain(c, k) && base.shortName == "" && base.provider == ""
    ensures Parsed(base, ToText(c, k), k) == Some(DefaultsFilled(c).(number := base.number))
  {
    hide Parsed, ToText, Printable, AllWithDefault;
    PrintedParses(c, base, k);
  }

  /** Parsing a printed line restores every printed field of a normal channel. */
  lemma RoundTrip(c: Record, base: Record, k: Sources)
    requires Normal(c, k) && base.shortName == "" && base.provider == ""
    ensures Parsed(base, ToText(c, k), k) == Some(c.(number := base.number))
  {
    hide Parsed, ToText, Plain;
    PlainBack(c, base, k);
    NoDefault(c.apids, 4);
    NoDefault(c.dpids, 0x6A);
  }

  /** Without types everything else is restored all the same, and the types become 4 in the
      audio list and 0x6A in the Dolby list. */
  lemma DefaultTypes(c: Record, base: Record, k: Sources)
    requires Plain(c, k) && base.shortName == "" && base.provider == ""
    ensures var r := Parsed(base, ToText(c, k), k);
      && r.Some? && |r.value.apids| == |c.apids| && |r.value.dpids| == |c.dpids|
      && r.value == c.(number := base.number, apids := r.value.apids, dpids := r.value.dpids)
      && (forall i :: 0 <= i < |c.apids| ==> r.value.apids[i] == if c.apids[i].kind != 0 then c.apids[i] else c.apids[i].(kind := 4))
      && (forall i :: 0 <= i < |c.dpids| ==> r.value.dpids[i] == if c.dpids[i].kind != 0 then c.dpids[i] else c.dpids[i].(kind := 0x6A))
  {
    hide Parsed, ToText, Plain;
    PlainBack(c, base, k);
  }

  // ---------------------------------------------------------------------------
  // Group separators
  // ---------------------------------------------------------------------------

  /** The line of a separator, without its newline. */
  function SeparatorLine(c: Record): string {
    (if c.number != 0 then ":@" + Dec(c.number) + " " else ":") + NameText(c)
  }

  lemma SeparatorLineIsPrinted(c: Record, k: Sources)
    requires c.separator
    ensures ToText(c, k) == SeparatorLine(c) + "\n"
  {
    hide NameText, Dec;
  }

  /** A separator whose number and name come back: an `@` must not start a name without a
      number, no comma may occur, since printing adds another one behind it, and a file has
      no place for a newline or for space at either end. */
  predicate SeparatorNormal(c: Record) {
    LineNormal(c) && '\n' !in c.name && (c.name != "" ==> !IsSpace(c.name[|c.name| - 1]))
  }

  /** What comes back from the bare line. */
  predicate LineNormal(c: Record) {
    && '|' !in c.name && ',' !in c.name
    && (c.name != "" ==> !IsSpace(c.name[0]))
    && (c.number > 0 || (c.number == 0 && (c.name != "" ==> c.name[0] != '@')))
  }

  /** Neither is ever set on a separator that was parsed. */
  predicate NameOnly(c: Record) {
    c.separator && IsEmpty(c.shortName) && IsEmpty(c.provider)
  }

  /** What is left of the text of a name. */
  function NameBehind(s: string): string {
    Replace(SkipSpace(s), '|', ':')
  }

  lemma SkipReplaced(s: string)
    ensures SkipSpace(Replace(s, ':', '|')) == Replace(SkipSpace(s), ':', '|')
  {
    if s != "" && IsSpace(s[0]) {
      assert Replace(s, ':', '|')[1..] == Replace(s[1..], ':', '|');
      SkipReplaced(s[1..]);
    }
  }

  lemma {:induction false} SkipLength(s: string)
    ensures |SkipSpace(s)| <= |s|
    ensures s != "" && IsSpace(s[0]) ==> |SkipSpace(s)| < |s|
    ensures SkipSpace(s) == s[|s| - |SkipSpace(s)|..]
    decreases |s|
  {
    if s != "" && IsSpace(s[0]) {
      SkipLength(s[1..]);
    }
  }

  lemma SkipOne(t: string)
    ensures SkipSpace(" " + t) == SkipSpace(t)
  {
    assert (" " + t)[1..] == t;
  }

  /** A number in front of the name is read back, and the name behind it. */
  lemma NumberedParses(c: Record, base: Record)
    requires c.number != 0
    ensures ParseSeparator(base, SeparatorLine(c)[1..])
         == base.(separator := true, number := if c.number > 0 then c.number else base.number,
                  name := NameBehind(if c.number > 0 then NameText(c) else Dec(c.number) + (" " + NameText(c))))
  {
    var d, t := Dec(c.number), NameText(c);
    var u := d + (" " + t);
    MarkedLine(c);
    DecBack(c.number, " " + t);
    SkipOne(t);
    hide Dec, NameText, ScanNumber, Replace, SeparatorLine, SkipSpace;
    assert ("@" + u)[0] == '@' && ("@" + u)[1..] == u;
  }

  lemma MarkedLine(c: Record)
    requires c.number != 0
    ensures SeparatorLine(c)[1..] == "@" + (Dec(c.number) + (" " + NameText(c)))
  {
    hide Dec, NameText;
  }

  lemma NoPipe(s: string)
    ensures '|' !in Replace(s, '|', ':')
  {
  }

  lemma NameBehindBack(s: string)
    requires s != "" ==> !IsSpace(s[0])
    ensures NameBehind(Replace(s, ':', '|')) == s <==> '|' !in s
  {
    SkipReplaced(s);
    if '|' !in s {
      ReplaceBack(s, ':', '|');
    } else {
      NoPipe(SkipSpace(Replace(s, ':', '|')));
    }
  }

  lemma {:induction false} AllSame(s: string, c: char)
    requires s != "" && s == s[1..] + [c]
    ensures s[0] == c
    decreases |s|
  {
    var n := |s| - 1;
    assert s[n] == c;
    if n > 0 {
      var t := s[..n];
      assert t == t[1..] + [c] by {
        assert forall i :: 0 <= i < n ==> t[i] == s[i];
        assert forall i :: 0 <= i < n ==> s[i] == s[i + 1];
      }
      AllSame(t, c);
    }
  }

  /** The full name of a separator: a comma is added to a name that has one. */
  function SeparatorName(name: string): string {
    name + if ',' in name then "," else ""
  }

  lemma TailAt(name: string, i: nat)
    requires '|' !in name && i < |name|
    ensures Replace(Replace(name + ",", ':', '|')[1..], '|', ':')[i] == if i + 1 < |name| then name[i + 1] else ','
  {
    hide Replace;
    assert i + 1 < |name| ==> name[i + 1] in name;
  }

  lemma OneDropped(name: string)
    requires Replace(Replace(name + ",", ':', '|')[1..], '|', ':') == name
    ensures forall c :: c in name ==> name[0] == ','
  {
    hide Replace;
    NoPipe(Replace(name + ",", ':', '|')[1..]);
    if name != "" {
      forall i | 0 <= i < |name|
        ensures name[i] == (name[1..] + [','])[i]
      {
        TailAt(name, i);
      }
      AllSame(name, ',');
    }
  }

  /** No tail of the printed text of a name with a comma reads as the name. */
  lemma CommaNeverBack(name: string, j: nat)
    requires ',' in name && j <= |name| + 1 && (name[0] == ',' ==> j == 0)
    ensures Replace(Replace(name + ",", ':', '|')[j..], '|', ':') != name
  {
    hide Replace;
    if j == 1 && Replace(Replace(name + ",", ':', '|')[1..], '|', ':') == name {
      OneDropped(name);
    }
  }

  /** A tail of the printed text behind a character that is not part of the name. */
  lemma TailNeverBack(name: string, j: nat)
    requires j <= |SeparatorName(name)| && (name != "" && name[0] == ',' ==> j == 0) && j > 0
    ensures Replace(Replace(SeparatorName(name), ':', '|')[j..], '|', ':') != name
  {
    if ',' in name {
      CommaNeverBack(name, j);
    }
  }

  lemma NameBehindIff(name: string)
    ensures NameBehind(Replace(SeparatorName(name), ':', '|')) == name
       <==> '|' !in name && ',' !in name && (name != "" ==> !IsSpace(name[0]))
  {
    var t := Replace(SeparatorName(name), ':', '|');
    SkipLength(t);
    if name != "" && IsSpace(name[0]) {
      TailNeverBack(name, |t| - |SkipSpace(t)|);
    } else if ',' in name {
      assert SkipSpace(t) == t[0..];
      CommaNeverBack(name, 0);
    } else {
      assert SeparatorName(name) == name;
      NameBehindBack(name);
    }
  }

  lemma AtLost(name: string)
    requires name != "" && name[0] == '@'
    ensures NameBehind(Replace(SeparatorName(name), ':', '|')[1..]) != name
  {
    var t := Replace(SeparatorName(name), ':', '|');
    var u := t[1..];
    SkipLength(u);
    assert SkipSpace(u) == t[|t| - |SkipSpace(u)|..];
    TailNeverBack(name, |t| - |SkipSpace(u)|);
  }

  lemma UnnumberedParses(c: Record, base: Record)
    requires c.number == 0 && NameOnly(c) && base.number == 0
    ensures ParseSeparator(base, NameText(c)) == base.(separator := true, name := c.name)
       <==> LineNormal(c)
  {
    var t := Replace(SeparatorName(c.name), ':', '|');
    assert NameText(c) == t;
    NameBehindIff(c.name);
    if c.name != "" && c.name[0] == '@' {
      AtLost(c.name);
    }
    hide SkipSpace, ScanNumber;
  }

  lemma LineBackIff(c: Record, base: Record, k: Sources)
    requires NameOnly(c) && base.number == 0
    ensures Parsed(base, SeparatorLine(c), k) == Some(base.(separator := true, number := c.number, name := c.name))
       <==> LineNormal(c)
  {
    assert NameText(c) == Replace(SeparatorName(c.name), ':', '|');
    SeparatorLineParses(c, base, k);
    hide NameText, SkipSpace, ScanNumber, Replace, Parsed, SeparatorLine, ParseSeparator;
    if c.number == 0 {
      UnnumberedParses(c, base);
    } else {
      NumberedParses(c, base);
      NameBehindIff(c.name);
    }
  }

  lemma SeparatorLineParses(c: Record, base: Record, k: Sources)
    ensures Parsed(base, SeparatorLine(c), k) == Some(ParseSeparator(base, SeparatorLine(c)[1..]))
    ensures c.number == 0 ==> SeparatorLine(c)[1..] == NameText(c)
  {
    hide NameText, Dec, ParseSeparator;
  }

  // --- the line in its file ---

  /** What reading a line of a file leaves of it: up to the newline, without space at the end. */
  function FileLine(text: string): string {
    Stripped(text[..Find(text, '\n')])
  }

  function Stripped(s: string): (r: string)
    ensures r <= s && (r != "" ==> !IsSpace(r[|r| - 1]))
  {
    if s != "" && IsSpace(s[|s| - 1]) then Stripped(s[..|s| - 1]) else s
  }

  /** `t` is the end of `s`. */
  predicate Behind(s: string, t: string) {
    |t| <= |s| && s[|s| - |t|..] == t
  }

  lemma {:induction false} BehindBehind(s: string, t: string, u: string)
    requires Behind(s, t) && Behind(t, u)
    ensures Behind(s, u)
  {
    var k := |s| - |t|;
    assert s[k..][|t| - |u|..] == s[k + (|t| - |u|)..];
  }

  lemma {:induction false} DigitsBehind(s: string, base: nat, acc: nat)
    ensures Behind(s, ScanDigits(s, base, acc).1)
    decreases |s|
  {
    if s != "" && DigitValue(s[0]) < base {
      DigitsBehind(s[1..], base, acc * base + DigitValue(s[0]));
      BehindBehind(s, s[1..], ScanDigits(s, base, acc).1);
    }
  }

  lemma {:induction false} NumberBehind(s: string)
    requires ScanNumber(s, 10).Some?
    ensures Behind(s, ScanNumber(s, 10).value.1)
  {
    var t := SkipSpace(s);
    SkipLength(s);
    var u := if t != "" && (t[0] == '-' || t[0] == '+') then t[1..] else t;
    assert Behind(t, u);
    BehindBehind(s, t, u);
    DigitsBehind(u, 10, 0);
    BehindBehind(s, u, ScanDigits(u, 10, 0).1);
  }

  lemma {:induction false} AtBehind(s: string)
    ensures Behind(s, SkipAt(s)) && Behind(s, s)
  {
  }

  lemma {:induction false} SpaceBehind(s: string)
    ensures Behind(s, SkipSpace(s))
  {
    SkipLength(s);
  }

  /** Whatever is parsed, the name is the end of the text, with bars as colons. */
  lemma {:induction false} NameIsBehind(base: Record, s: string) returns (t: string)
    ensures Behind(s, t) && ParseSeparator(base, s).name == Replace(t, '|', ':')
  {
    hide ScanNumber, SkipSpace, Replace, Behind, SkipAt;
    var u := SkipAt(s);
    AtBehind(s);
    var n := ScanNumber(u, 10);
    var v := u;
    if s != "" && s[0] == '@' && n.Some? && n.value.0 > 0 {
      v := n.value.1;
      NumberBehind(u);
      BehindBehind(s, u, v);
    }
    t := SkipSpace(v);
    SpaceBehind(v);
    BehindBehind(s, v, t);
  }

  /** So no newline and no space at the end comes out of the file. */
  lemma {:induction false} NameFromFile(base: Record, s: string)
    requires '\n' !in s && (s != "" ==> !IsSpace(s[|s| - 1]))
    ensures var name := ParseSeparator(base, s).name;
      '\n' !in name && (name != "" ==> !IsSpace(name[|name| - 1]))
  {
    var t := NameIsBehind(base, s);
    hide ParseSeparator;
    assert forall i :: 0 <= i < |t| ==> t[i] == s[|s| - |t| + i];
  }

  lemma {:induction false} StrippedKeeps(s: string)
    requires s != "" && !IsSpace(s[0])
    ensures Stripped(s) != "" && Stripped(s)[0] == s[0]
    decreases |s|
  {
    if IsSpace(s[|s| - 1]) {
      StrippedKeeps(s[..|s| - 1]);
    }
  }

  lemma {:induction false} FileLineIs(c: Record)
    ensures var r := FileLine(SeparatorLine(c) + "\n");
      && r != "" && r[0] == ':' && '\n' !in r && !IsSpace(r[|r| - 1])
  {
    var t := SeparatorLine(c) + "\n";
    LineStarts(c);
    hide SeparatorLine;
    StrippedKeeps(t[..Find(t, '\n')]);
  }

  lemma {:induction false} LineStarts(c: Record)
    ensures SeparatorLine(c) != "" && SeparatorLine(c)[0] == ':'
    ensures '\n' !in NameText(c) ==> '\n' !in SeparatorLine(c)
  {
    DecPlain(c.number, '\n');
    hide Dec, NameText;
  }

  lemma {:induction false} FileLineWhole(c: Record)
    requires '\n' !in NameText(c)
    ensures FileLine(SeparatorLine(c) + "\n") == Stripped(SeparatorLine(c))
  {
    LineStarts(c);
    hide SeparatorLine, NameText, Stripped;
    var l := SeparatorLine(c);
    FindBack(l, '\n', "");
    assert l + "\n" == l + ['\n'] + "";
    assert (l + "\n")[..|l|] == l;
  }

  /** A name that ends properly ends its line. */
  lemma {:induction false} LineEnd(c: Record)
    requires NameOnly(c) && c.name != "" && !IsSpace(c.name[|c.name| - 1])
    ensures Stripped(SeparatorLine(c)) == SeparatorLine(c)
  {
    assert NameText(c) == Replace(SeparatorName(c.name), ':', '|');
    var n := SeparatorName(c.name);
    assert !IsSpace(n[|n| - 1]);
  }

  /** Without a name the space behind the number is dropped. */
  lemma {:induction false} EmptyStripped(c: Record)
    requires NameOnly(c) && c.name == "" && c.number != 0
    ensures Stripped(SeparatorLine(c)) == ":@" + Dec(c.number)
  {
    var d := Dec(c.number);
    assert NameText(c) == "";
    DecEnds(c.number);
    hide Dec, NameText;
    var l := ":@" + d;
    assert SeparatorLine(c) == l + " ";
    assert (l + " ")[..|l|] == l;
    StripOne(l);
  }

  lemma {:induction false} StripOne(l: string)
    requires l != "" && !IsSpace(l[|l| - 1])
    ensures Stripped(l + " ") == l && Stripped(l) == l
  {
    assert (l + " ")[..|l|] == l;
  }

  lemma {:induction false} EmptyParses(base: Record, number: int)
    requires number != 0 && base.number == 0
    ensures ParseSeparator(base, "@" + Dec(number)) == base.(separator := true, number := number, name := "")
       <==> number > 0
  {
    var d := Dec(number);
    DecBack(number, "");
    assert d + "" == d;
    assert ("@" + d)[1..] == d;
    hide Dec, ScanNumber;
  }

  lemma {:induction false} DecEnds(n: int)
    ensures Dec(n) != "" && !IsSpace(Dec(n)[|Dec(n)| - 1])
  {
    var d := Dec(n);
    assert d[|d| - 1] in d;
    DecPlain(n, d[|d| - 1]);
  }

  /** What does not end properly cannot come out of a file. */
  lemma {:induction false} BadEndLost(name: string, base: Record, r: string)
    requires '\n' in name || (name != "" && IsSpace(name[|name| - 1]))
    requires r != "" && '\n' !in r && !IsSpace(r[|r| - 1])
    ensures ParseSeparator(base, r[1..]).name != name
  {
    hide ParseSeparator;
    assert r[1..] != "" ==> r[1..][|r| - 2] == r[|r| - 1];
    NameFromFile(base, r[1..]);
  }

  lemma {:induction false} GoodEndBackIff(c: Record, base: Record, k: Sources)
    requires NameOnly(c) && base.number == 0
    requires c.name != "" ==> !IsSpace(c.name[|c.name| - 1])
    ensures Parsed(base, Stripped(SeparatorLine(c)), k) == Some(base.(separator := true, number := c.number, name := c.name))
       <==> LineNormal(c)
  {
    if c.name != "" {
      LineEnd(c);
      LineBackIff(c, base, k);
    } else if c.number == 0 {
      EmptyLine(c);
      LineBackIff(c, base, k);
    } else {
      EmptyBackIff(c, base, k);
    }
    hide *;
  }

  lemma {:induction false} EmptyLine(c: Record)
    requires NameOnly(c) && c.name == "" && c.number == 0
    ensures Stripped(SeparatorLine(c)) == SeparatorLine(c)
  {
    assert NameText(c) == "" && SeparatorLine(c) == ":";
    StripOne(":");
  }

  lemma {:induction false} EmptyBackIff(c: Record, base: Record, k: Sources)
    requires NameOnly(c) && base.number == 0 && c.name == "" && c.number != 0
    ensures Parsed(base, Stripped(SeparatorLine(c)), k) == Some(base.(separator := true, number := c.number, name := c.name))
       <==> LineNormal(c)
  {
    EmptyStripped(c);
    EmptyParses(base, c.number);
    hide Stripped, SeparatorLine, ParseSeparator, Dec, NameText;
    var l := ":@" + Dec(c.number);
    assert l[1..] == "@" + Dec(c.number);
  }

  lemma {:induction false} TextEnd(c: Record)
    requires NameOnly(c) && '\n' !in c.name
    ensures '\n' !in NameText(c)
  {
    assert NameText(c) == Replace(SeparatorName(c.name), ':', '|');
  }

  /** Saved and loaded, a separator comes back exactly when its name and number are normal. */
  lemma {:induction false} SeparatorBackIff(c: Record, base: Record, k: Sources)
    requires NameOnly(c) && base.number == 0
    ensures Parsed(base, FileLine(ToText(c, k)), k) == Some(base.(separator := true, number := c.number, name := c.name))
       <==> SeparatorNormal(c)
  {
    hide ToText, FileLine, ParseSeparator, Parsed, Stripped, SeparatorLine, LineNormal, NameText;
    SeparatorLineIsPrinted(c, k);
    if '\n' in c.name || (c.name != "" && IsSpace(c.name[|c.name| - 1])) {
      FileLineIs(c);
      var r := FileLine(SeparatorLine(c) + "\n");
      ColonParses(base, r, k);
      BadEndLost(c.name, base, r);
    } else {
      TextEnd(c);
      FileLineWhole(c);
      GoodEndBackIff(c, base, k);
    }
  }

  lemma {:induction false} ColonParses(base: Record, s: string, k: Sources)
    requires s != "" && s[0] == ':'
    ensures Parsed(base, s, k) == Some(ParseSeparator(base, s[1..]))
  {
    hide ParseSeparator;
  }
}
