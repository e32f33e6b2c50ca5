/** Lines with fewer fields than are printed today: without some of the last ids, and the old
    format of nine fields. */
module ChannelOldLine {
  import opened Common
  import opened ChannelText
  import opened ChannelLine

  // ---------------------------------------------------------------------------
  // sscanf on a shorter text
  // ---------------------------------------------------------------------------

  lemma NewlineEnds(p: Separator, format: seq<(Conversion, Separator)>)
    requires p != Colon || format == []
    ensures match Separate("\n", p)
            case None => true
            case Some(t) => Scanf(t, format) == []
  {
    assert SkipSpace("\n") == "";
    assert Scanf("", format) == [] by {
      EmptyConverts();
    }
    if format == [] {
      assert forall t :: Scanf(t, format) == [];
    }
  }

  lemma EmptyConverts()
    ensures forall c :: Convert("", c).None?
  {
  }

  /** A text that ends behind a number ends the conversions there. */
  lemma {:induction false} ScanfFew(vs: seq<Value>, format: seq<(Conversion, Separator)>)
    requires 0 < |vs| <= |format| && format[|vs| - 1].0 == AnyNumber && format[|vs| - 1].1 != Colon
    requires forall i :: 0 <= i < |vs| - 1 ==> format[i].1 != Space
    requires forall i :: 0 <= i < |vs| ==> Matches(vs[i], format[i].0)
    ensures Scanf(ShowAll(vs), format) == vs
    decreases |vs|
  {
    hide Convert, Show, Matches, Dec;
    if |vs| == 1 {
      NewlineEndsNumber();
      ConvertBack(vs[0], AnyNumber, "\n");
      NewlineEnds(format[0].1, format[1..]);
      hide Separate;
    } else {
      var rest := ":" + ShowAll(vs[1..]);
      assert rest[0] == ':' && !StartsWithDigit(rest, 10);
      assert ShowAll(vs) == Show(vs[0]) + rest;
      ConvertBack(vs[0], format[0].0, rest);
      assert rest[1..] == ShowAll(vs[1..]);
      ScanfFew(vs[1..], format[1..]);
    }
  }

  /** Values with a colon behind each, and the text that follows. */
  function ShowBefore(vs: seq<Value>, u: string): string {
    if vs == [] then u else Show(vs[0]) + (":" + ShowBefore(vs[1..], u))
  }

  lemma TextEnds(u: string, format: seq<(Conversion, Separator)>)
    requires format != [] && format[0] == (AnyText, Colon) && u != "" && ':' !in u
    ensures Scanf(u, format) == [Text(u)]
  {
    var i := UntilColon(u);
    assert i == |u|;
    assert u[..i] == u && u[i..] == "";
  }

  /** A text that ends behind a text without a colon ends the conversions there. */
  lemma {:induction false} ScanfBefore(vs: seq<Value>, u: string, format: seq<(Conversion, Separator)>)
    requires |vs| < |format| && format[|vs|] == (AnyText, Colon) && u != "" && ':' !in u
    requires forall i :: 0 <= i < |vs| ==> format[i].1 != Space && Matches(vs[i], format[i].0)
    ensures Scanf(ShowBefore(vs, u), format) == vs + [Text(u)]
    decreases |vs|
  {
    hide Convert, Show, Matches, Dec;
    if vs == [] {
      TextEnds(u, format);
    } else {
      var rest := ":" + ShowBefore(vs[1..], u);
      assert rest[0] == ':' && !StartsWithDigit(rest, 10);
      ConvertBack(vs[0], format[0].0, rest);
      assert rest[1..] == ShowBefore(vs[1..], u);
      ScanfBefore(vs[1..], u, format[1..]);
      assert vs == [vs[0]] + vs[1..];
    }
  }

  // ---------------------------------------------------------------------------
  // Missing ids
  // ---------------------------------------------------------------------------

  /** The ids a line of `n` fields does not have stay as they were. */
  predicate IdsFrom(c: Record, base: Record, n: nat) {
    (n <= 12 ==> c.rid == base.rid) && (n <= 11 ==> c.tid == base.tid) && (n <= 10 ==> c.nid == base.nid)
  }

  lemma FewBack(c: Record, base: Record, k: Sources, n: nat)
    requires Plain(c, k) && base.shortName == "" && base.provider == "" && 10 <= n <= 13 && IdsFrom(c, base, n)
    ensures Typed(Values(c, k)[..n])
    ensures ParseValues(base, Values(c, k)[..n], k) == Some(DefaultsFilled(c).(number := base.number))
  {
    hide NameText, VideoText, VideoField, AudioText, SubtitleText, CaText, ParseName, ParseVideo, ParseList, ParseSecond,
      ParseCa, Cut, ScanInt, NameNormal, VideoNormal, ListsFit, TracksPlain, AllWithDefault, Typed;
    ValuesTyped(c, k);
    TypedPrefix(Values(c, k), n);
    NameBack(c, base);
    VideoBackIff(c.video);
    PidsBack(c);
    CaBackIff(c.caids);
  }

  lemma TypedPrefix(vs: seq<Value>, n: nat)
    requires Typed(vs) && n <= |vs|
    ensures Typed(vs[..n])
  {
  }

  lemma LineIs(base: Record, s: string, vs: seq<Value>, k: Sources)
    requires s != "" && s[0] != ':' && Scanf(s, Format()) == vs && Typed(vs) && |vs| >= 9
    ensures Parsed(base, s, k) == ParseValues(base, vs, k)
  {
    hide ParseValues, Scanf, Typed;
  }

  lemma PlainName(c: Record, k: Sources)
    requires Plain(c, k)
    ensures NameNormal(c)
  {
  }

  lemma FewMatch(c: Record, k: Sources, n: nat)
    requires Plain(c, k) && 10 <= n <= 13
    ensures var vs := Values(c, k)[..n];
      && Format()[n - 1].0 == AnyNumber && Format()[n - 1].1 != Colon
      && (forall i :: 0 <= i < n - 1 ==> Format()[i].1 != Space)
      && (forall i :: 0 <= i < n ==> Matches(vs[i], Format()[i].0))
  {
    hide Matches, Printable, Values, Format;
    ValuesMatch(c, k);
    FormatEnds(n);
  }

  lemma FormatEnds(n: nat)
    requires 10 <= n <= 13
    ensures Format()[n - 1].0 == AnyNumber && Format()[n - 1].1 != Colon
    ensures forall i :: 0 <= i < n - 1 ==> Format()[i].1 != Space
  {
  }

  lemma FewStarts(c: Record, k: Sources, n: nat)
    requires NameText(c) != "" && ':' !in NameText(c) && 10 <= n <= 13
    ensures var s := ShowAll(Values(c, k)[..n]); s != "" && s[0] != ':'
  {
    hide NameText, VideoField, AudioText, SubtitleText, CaText, Dec;
    var vs := Values(c, k)[..n];
    assert ShowAll(vs) == Show(vs[0]) + ":" + ShowAll(vs[1..]);
  }

  /** A line of ten to thirteen fields gives every field it has. */
  lemma FewIdsParse(c: Record, base: Record, k: Sources, n: nat)
    requires Plain(c, k) && base.shortName == "" && base.provider == "" && 10 <= n <= 13 && IdsFrom(c, base, n)
    ensures Parsed(base, ShowAll(Values(c, k)[..n]), k) == Some(DefaultsFilled(c).(number := base.number))
  {
    NameBack(c, base) by { PlainName(c, k); }
    hide *;
    var vs := Values(c, k)[..n];
    FewMatch(c, k, n);
    ScanfFew(vs, Format());
    FewBack(c, base, k, n);
    FewStarts(c, k, n);
    LineIs(base, ShowAll(vs), vs, k);
  }

  // ---------------------------------------------------------------------------
  // The old format
  // ---------------------------------------------------------------------------

  /** Nine fields: one access id where the teletext PID is, and the service id at the end. */
  function OldLine(c: Record, ca: int, k: Sources, end: string): string {
    NameText(c) + (":" + (Dec(c.frequency) + (":" + (c.parameters + (":" + ((k.show)(c.source) + (":" + (Dec(c.srate)
    + (":" + (VideoField(c.video) + (":" + (AudioText(c) + (":" + (Dec(ca) + (":" + (Dec(c.sid) + end))))))))))))))))
  }

  function OldValues(c: Record, ca: int, k: Sources): (vs: seq<Value>)
    ensures |vs| == 8
  {
    Values(c, k)[..7] + [Text(Dec(ca))]
  }

  lemma OldLineShown(c: Record, ca: int, k: Sources, end: string)
    ensures OldLine(c, ca, k, end) == ShowBefore(OldValues(c, ca, k), Dec(c.sid) + end)
  {
    hide NameText, VideoField, AudioText, SubtitleText, CaText, Dec;
    var vs, u := OldValues(c, ca, k), Dec(c.sid) + end;
    assert ShowBefore(vs, u) == Show(vs[0]) + (":" + ShowBefore(vs[1..], u));
    assert ShowBefore(vs[1..], u) == Show(vs[1]) + (":" + ShowBefore(vs[2..], u)) by { assert vs[1..][1..] == vs[2..]; }
    assert ShowBefore(vs[2..], u) == Show(vs[2]) + (":" + ShowBefore(vs[3..], u)) by { assert vs[2..][1..] == vs[3..]; }
    assert ShowBefore(vs[3..], u) == Show(vs[3]) + (":" + ShowBefore(vs[4..], u)) by { assert vs[3..][1..] == vs[4..]; }
    assert ShowBefore(vs[4..], u) == Show(vs[4]) + (":" + ShowBefore(vs[5..], u)) by { assert vs[4..][1..] == vs[5..]; }
    assert ShowBefore(vs[5..], u) == Show(vs[5]) + (":" + ShowBefore(vs[6..], u)) by { assert vs[5..][1..] == vs[6..]; }
    assert ShowBefore(vs[6..], u) == Show(vs[6]) + (":" + ShowBefore(vs[7..], u)) by { assert vs[6..][1..] == vs[7..]; }
    assert ShowBefore(vs[7..], u) == Show(vs[7]) + (":" + u) by { assert vs[7..][1..] == []; }
  }

  lemma OldMatch(c: Record, ca: int, k: Sources)
    requires Plain(c, k)
    ensures forall i :: 0 <= i < 8 ==> Format()[i].1 != Space && Matches(OldValues(c, ca, k)[i], Format()[i].0)
  {
    DecPlain(ca, ':');
    hide NameText, VideoText, VideoField, AudioText, SubtitleText, CaText, Printable, Dec, Values;
    ValuesMatch(c, k);
  }

  /** The access id is read where the teletext PID is read afterwards, and both stay. */
  lemma OldBack(c: Record, base: Record, k: Sources, end: string)
    requires Plain(c, k) && base.shortName == "" && base.provider == "" && IdsFrom(c, base, 10) && c.spids == []
    requires !StartsWithDigit(end, 10)
    ensures var vs := OldValues(c, c.tpid, k) + [Text(Dec(c.sid) + end)];
      && Typed(vs)
      && ParseValues(base, vs, k)
      == Some(DefaultsFilled(c).(number := base.number, caids := if c.tpid == 0 then [] else [c.tpid]))
  {
    hide NameText, VideoText, VideoField, AudioText, SubtitleText, CaText, ParseName, ParseVideo, ParseList,
      ParseCa, Cut, NameNormal, VideoNormal, ListsFit, TracksPlain, AllWithDefault, ScanNumber, Dec, Typed;
    OldTyped(c, k, end);
    NameBack(c, base);
    VideoBackIff(c.video);
    PidsBack(c);
    DecScans(c.tpid);
    DecBack(c.sid, end);
    OldTeletext(c);
    OldIds(c.tpid);
  }

  lemma OldIds(id: int)
    ensures NonZero([id]) == if id == 0 then [] else [id]
  {
  }

  lemma OldTyped(c: Record, k: Sources, end: string)
    ensures Typed(OldValues(c, c.tpid, k) + [Text(Dec(c.sid) + end)])
  {
    hide NameText, VideoText, VideoField, AudioText, SubtitleText, CaText, Dec;
  }

  lemma OldTeletext(c: Record)
    requires c.spids == []
    ensures SubtitleText(c) == Dec(c.tpid) && Cut(Dec(c.tpid), ';') == (Dec(c.tpid), None)
  {
    DecPlain(c.tpid, ';');
    hide Dec, Cut;
    CutBack(Dec(c.tpid), ';', "");
    assert Dec(c.tpid) + "" == Dec(c.tpid);
  }

  /** A line of the old format gives its fields, the access id as the only one, and the ids it
      does not have as they were. Afterwards the teletext PID is the access id too. */
  lemma OldFormatParses(c: Record, base: Record, k: Sources, end: string)
    requires Plain(c, k) && base.shortName == "" && base.provider == "" && c.spids == []
    requires c.nid == base.nid && c.tid == base.tid && c.rid == base.rid
    requires !StartsWithDigit(end, 10) && ':' !in end
    ensures Parsed(base, OldLine(c, c.tpid, k, end), k)
         == Some(DefaultsFilled(c).(number := base.number, caids := if c.tpid == 0 then [] else [c.tpid]))
  {
    NameBack(c, base) by { PlainName(c, k); }
    hide *;
    OldMatch(c, c.tpid, k);
    var vs, u := OldValues(c, c.tpid, k), Dec(c.sid) + end;
    OldEnd(c, end);
    ScanfBefore(vs, u, Format());
    OldLineShown(c, c.tpid, k, end);
    OldBack(c, base, k, end);
    OldStarts(c, k, end);
    LineIs(base, OldLine(c, c.tpid, k, end), vs + [Text(u)], k);
  }

  lemma OldEnd(c: Record, end: string)
    requires ':' !in end
    ensures ':' !in Dec(c.sid) + end && Dec(c.sid) + end != "" && Format()[8] == (AnyText, Colon)
  {
    DecPlain(c.sid, ':');
    hide Dec;
  }

  lemma OldStarts(c: Record, k: Sources, end: string)
    requires NameText(c) != "" && ':' !in NameText(c)
    ensures OldLine(c, c.tpid, k, end) != "" && OldLine(c, c.tpid, k, end)[0] != ':'
  {
    hide NameText, VideoField, AudioText, Dec;
  }
}
