/** Whole lines written out: what a channel looks like in its file, character by character. */
module ChannelKnown {
  import opened Common
  import opened ChannelText
  import opened ChannelLine

  lemma Unchanged(s: string, a: char, b: char)
    requires a !in s
    ensures Replace(s, a, b) == s
  {
  }

  // ---------------------------------------------------------------------------
  // The line the manual explains
  // ---------------------------------------------------------------------------

  /** A channel whose audio PIDs have no types yet. */
  function Rtl(source: int): Record {
    Record(false, 0, "RTL Television", "RTL", "RTL World", 12187, "hC34M2O0S0", source, 27500,
      Video(163, 163, 2), [Track(104, "deu", 0)], [Track(106, "deu", 0)], 105, [], [], 12003, 1, 1089, 0)
  }

  lemma RtlLongNumbers()
    ensures Dec(12187) == "12187" && Dec(27500) == "27500" && Dec(12003) == "12003" && Dec(1089) == "1089"
  {
    hide Digits;
    RtlLongDigits();
  }

  lemma RtlLongDigits()
    ensures Digits(12187, 10) == "12187" && Digits(27500, 10) == "27500"
    ensures Digits(12003, 10) == "12003" && Digits(1089, 10) == "1089"
  {
    assert Digits(12187, 10) == "12187" by { TwelveThousand(); }
    assert Digits(12003, 10) == "12003" by { TwelveThousand(); }
  }

  lemma TwelveThousand()
    ensures Digits(12187, 10) == "12187" && Digits(12003, 10) == "12003"
  {
  }

  lemma RtlShortNumbers()
    ensures Dec(0) == "0" && Dec(1) == "1" && Dec(2) == "2" && Dec(163) == "163"
    ensures Dec(104) == "104" && Dec(106) == "106" && Dec(105) == "105"
  {
  }

  lemma RtlNumbers()
    ensures Dec(12187) == "12187" && Dec(27500) == "27500" && Dec(12003) == "12003" && Dec(1089) == "1089"
    ensures Dec(0) == "0" && Dec(1) == "1" && Dec(2) == "2" && Dec(163) == "163"
    ensures Dec(104) == "104" && Dec(106) == "106" && Dec(105) == "105"
  {
    hide Dec;
    RtlLongNumbers();
    RtlShortNumbers();
  }

  lemma NotEmpty(s: string)
    requires s != "" && !IsSpace(s[0])
    ensures !IsEmpty(s)
  {
  }

  lemma NamePieces(c: Record)
    requires ',' !in c.name && !IsEmpty(c.shortName) && !IsEmpty(c.provider)
    ensures FullName(c) == c.name + ("," + c.shortName) + (";" + c.provider)
  {
    hide IsEmpty;
  }

  lemma RtlPieces(source: int)
    ensures FullName(Rtl(source)) == "RTL Television" + ",RTL" + ";RTL World"
  {
    NotEmpty("RTL");
    NotEmpty("RTL World");
    assert "," + "RTL" == ",RTL";
    assert ";" + "RTL World" == ";RTL World";
    hide IsEmpty, FullName;
    NamePieces(Rtl(source));
  }

  lemma RtlName(source: int)
    ensures NameText(Rtl(source)) == "RTL Television" + ",RTL" + ";RTL World"
  {
    RtlPieces(source);
    assert ':' !in "RTL Television" && ':' !in ",RTL" && ':' !in ";RTL World";
    hide FullName, Replace;
    Unchanged(FullName(Rtl(source)), ':', '|');
  }

  lemma RtlNameNormal(source: int)
    ensures NameNormal(Rtl(source))
  {
    NotEmpty("RTL");
    NotEmpty("RTL World");
    RtlPieces(source);
    hide IsEmpty, FullName;
  }

  lemma One(t: Track, types: bool)
    ensures PrintList([t], types) == PrintTrack(t, types)
  {
    assert Printed([t], types)[0] == PrintTrack(t, types);
  }

  lemma RtlFields(source: int)
    ensures var c := Rtl(source);
      VideoText(c.video) == "163=2" && AudioText(c) == "104=deu;106=deu" && SubtitleText(c) == "105" && CaText(c.caids) == "0"
  {
    RtlNumbers();
    One(Track(104, "deu", 0), true);
    One(Track(106, "deu", 0), true);
    hide Dec, PrintList;
  }

  lemma RtlPlain(source: int, k: Sources)
    requires source >= 0 && (k.show)(source) == "S19.2E" && (k.parse)("S19.2E") == source
    ensures Plain(Rtl(source), k)
  {
    RtlFields(source);
    RtlNameNormal(source);
    hide VideoText, AudioText, SubtitleText, CaText, NameNormal;
  }

  /** `RTL Television,RTL;RTL World:12187:hC34M2O0S0:S19.2E:27500:163=2:104=deu;106=deu:105:0:12003:1:1089:0` */
  function RtlLine(): string {
    "RTL Television" + ",RTL" + ";RTL World" + ":" + ("12187:" + ("hC34M2O0S0:" + ("S19.2E:" + ("27500:" + ("163=2:" + ("104=deu;106=deu:"
    + ("105:" + ("0:" + ("12003:" + ("1:" + ("1089:" + "0\n")))))))))))
  }

  lemma ShowOne(v: Value, s: string, vs: seq<Value>)
    requires vs != [] && Show(v) + ":" == s
    ensures ShowAll([v] + vs) == s + ShowAll(vs)
  {
  }

  lemma ShowLast(v: Value, s: string)
    requires Show(v) + "\n" == s
    ensures ShowAll([v]) == s
  {
  }

  function RtlIds(): seq<Value> {
    [Text("0")] + ([Number(12003)] + ([Number(1)] + ([Number(1089)] + [Number(0)])))
  }

  lemma RtlIdsShown()
    ensures ShowAll(RtlIds()) == "0:" + ("12003:" + ("1:" + ("1089:" + "0\n")))
  {
    RtlNumbers();
    hide Dec, ShowAll;
    ShowLast(Number(0), "0\n");
    ShowOne(Number(1089), "1089:", [Number(0)]);
    ShowOne(Number(1), "1:", [Number(1089)] + [Number(0)]);
    ShowOne(Number(12003), "12003:", [Number(1)] + ([Number(1089)] + [Number(0)]));
    ShowOne(Text("0"), "0:", [Number(12003)] + ([Number(1)] + ([Number(1089)] + [Number(0)])));
  }

  function RtlPids(): seq<Value> {
    [Number(27500)] + ([Text("163=2")] + ([Text("104=deu;106=deu")] + ([Text("105")] + RtlIds())))
  }

  lemma RtlPidsShown()
    ensures ShowAll(RtlPids()) == "27500:" + ("163=2:" + ("104=deu;106=deu:" + ("105:" + ShowAll(RtlIds()))))
  {
    RtlNumbers();
    hide Dec, ShowAll;
    var vs := RtlIds();
    assert vs != [];
    hide RtlIds;
    ShowOne(Text("105"), "105:", vs);
    ShowOne(Text("104=deu;106=deu"), "104=deu;106=deu:", [Text("105")] + vs);
    ShowOne(Text("163=2"), "163=2:", [Text("104=deu;106=deu")] + ([Text("105")] + vs));
    ShowOne(Number(27500), "27500:", [Text("163=2")] + ([Text("104=deu;106=deu")] + ([Text("105")] + vs)));
  }

  lemma RtlFrontShown(name: string)
    ensures ShowAll([Text(name)] + ([Number(12187)] + ([Text("hC34M2O0S0")] + ([Text("S19.2E")] + RtlPids()))))
         == name + ":" + ("12187:" + ("hC34M2O0S0:" + ("S19.2E:" + ShowAll(RtlPids()))))
  {
    RtlNumbers();
    hide Dec, ShowAll;
    var vs := RtlPids();
    assert vs != [];
    hide RtlPids;
    ShowOne(Text("S19.2E"), "S19.2E:", vs);
    ShowOne(Text("hC34M2O0S0"), "hC34M2O0S0:", [Text("S19.2E")] + vs);
    ShowOne(Number(12187), "12187:", [Text("hC34M2O0S0")] + ([Text("S19.2E")] + vs));
    ShowOne(Text(name), name + ":", [Number(12187)] + ([Text("hC34M2O0S0")] + ([Text("S19.2E")] + vs)));
  }

  lemma RtlValues(source: int, k: Sources)
    requires (k.show)(source) == "S19.2E"
    ensures Values(Rtl(source), k)
         == [Text("RTL Television" + ",RTL" + ";RTL World")] + ([Number(12187)] + ([Text("hC34M2O0S0")] + ([Text("S19.2E")] + RtlPids())))
  {
    RtlName(source);
    RtlFields(source);
    hide VideoText, AudioText, SubtitleText, CaText, NameText, Dec;
  }

  lemma RtlPrinted(source: int, k: Sources)
    requires (k.show)(source) == "S19.2E"
    ensures ToText(Rtl(source), k) == RtlLine()
  {
    hide ShowAll, Values, RtlPids, RtlIds;
    RtlValues(source, k);
    RtlFrontShown("RTL Television" + ",RTL" + ";RTL World");
    RtlPidsShown();
    RtlIdsShown();
  }

  /** The line parses to what the manual says, and the types are 4 and 0x6A. */
  lemma RtlParses(base: Record, source: int, k: Sources)
    requires source >= 0 && (k.show)(source) == "S19.2E" && (k.parse)("S19.2E") == source
    requires base.shortName == "" && base.provider == ""
    ensures Parsed(base, RtlLine(), k)
      == Some(Record(false, base.number, "RTL Television", "RTL", "RTL World", 12187, "hC34M2O0S0", source, 27500,
           Video(163, 163, 2), [Track(104, "deu", 4)], [Track(106, "deu", 0x6A)], 105, [], [], 12003, 1, 1089, 0))
  {
    RtlPlain(source, k);
    RtlPrinted(source, k);
    hide Parsed, ToText, Plain, RtlLine;
    PlainBack(Rtl(source), base, k);
    assert AllWithDefault([Track(104, "deu", 0)], 4) == [Track(104, "deu", 4)];
    assert AllWithDefault([Track(106, "deu", 0)], 0x6A) == [Track(106, "deu", 0x6A)];
  }

  // ---------------------------------------------------------------------------
  // Fields the manual's line does not use
  // ---------------------------------------------------------------------------

  lemma TypedAudio()
    ensures PrintTrack(Track(80, "deu", 3), true) == "80=deu@3" && PrintTrack(Track(81, "", 4), true) == "81=@4"
  {
    assert Dec(80) == "80" && Dec(81) == "81" && Dec(3) == "3" && Dec(4) == "4";
    hide Dec;
  }

  lemma TypedList()
    ensures PrintList([Track(80, "deu", 3), Track(81, "", 4)], true) == "80=deu@3,81=@4"
  {
    hide PrintTrack;
    TypedAudio();
    var ts := [Track(80, "deu", 3), Track(81, "", 4)];
    assert Printed(ts, true) == ["80=deu@3", "81=@4"];
  }

  lemma ClockAndType()
    ensures VideoField(Video(160, 161, 27)) == "160+161=27"
  {
    assert Dec(160) == "160" && Dec(161) == "161" && Dec(27) == "27";
    hide Dec;
  }

  lemma AccessIds()
    ensures CaText([0xABCD, 0xEF0]) == "ABCD,EF0"
  {
    assert HexText(0xABCD) == "ABCD" && HexText(0xEF0) == "EF0";
    hide HexText;
    assert Hex([0xABCD, 0xEF0]) == ["ABCD", "EF0"];
  }

  lemma Subtitles(c: Record)
    requires c.tpid == 32 && c.spids == [Track(33, "deu", 0)]
    ensures SubtitleText(c) == "32;33=deu"
  {
    assert Dec(32) == "32" && Dec(33) == "33";
    hide Dec;
    One(Track(33, "deu", 0), false);
  }

  /** A colon in a name is printed as a bar. */
  lemma SeparatorWrittenOut(c: Record, k: Sources)
    requires c.separator && c.number == 201 && c.name == "a:b" && c.shortName == "" && c.provider == ""
    ensures ToText(c, k) == ":@" + "201" + " " + "a|b" + "\n"
  {
    assert Dec(201) == "201";
    assert Replace("a:b", ':', '|') == "a|b";
    hide Dec, Replace;
  }
}
