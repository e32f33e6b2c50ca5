/** One line of the channel list: how a channel is printed, and how a line is parsed with
    `sscanf`, `strtok_r` and `strtol`. */
module ChannelText {
  import opened Common

  // ---------------------------------------------------------------------------
  // Characters and numbers
  // ---------------------------------------------------------------------------

  predicate IsSpace(c: char) {
    c == ' ' || c == '\t' || c == '\n' || c == '\r' || c == 11 as char || c == 12 as char
  }

  function SkipSpace(s: string): (r: string)
    ensures r == "" || !IsSpace(r[0])
  {
    if s != "" && IsSpace(s[0]) then SkipSpace(s[1..]) else s
  }

  predicate IsEmpty(s: string) {
    SkipSpace(s) == ""
  }

  function DigitChar(d: nat): char
    requires d < 16
  {
    if d < 10 then ('0' as int + d) as char else ('A' as int + (d - 10)) as char
  }

  /** The value of a digit, or 99. */
  function DigitValue(c: char): nat {
    if '0' <= c <= '9' then c as int - '0' as int
    else if 'A' <= c <= 'F' then c as int - 'A' as int + 10
    else if 'a' <= c <= 'f' then c as int - 'a' as int + 10
    else 99
  }

  /** `%d` or `%X` of a number that is not negative. */
  function Digits(n: nat, base: nat): (s: string)
    requires base == 10 || base == 16
    ensures s != "" && forall c :: c in s ==> DigitValue(c) < base && !IsSpace(c)
    decreases n
  {
    if n < base then [DigitChar(n)] else Digits(n / base, base) + [DigitChar(n % base)]
  }

  function Dec(n: int): (s: string)
    ensures s != ""
  {
    if n < 0 then "-" + Digits(-n, 10) else Digits(n, 10)
  }

  /** Reads digits as long as there are any, on top of the number read so far. */
  function ScanDigits(s: string, base: nat, acc: nat): (nat, string) {
    if s != "" && DigitValue(s[0]) < base then ScanDigits(s[1..], base, acc * base + DigitValue(s[0])) else (acc, s)
  }

  predicate StartsWithDigit(s: string, base: nat) {
    s != "" && DigitValue(s[0]) < base
  }

  /** Base 16 allows a prefix in front of the digits. */
  function SkipPrefix(s: string, base: nat): string {
    if base == 16 && |s| >= 3 && s[0] == '0' && (s[1] == 'x' || s[1] == 'X') && DigitValue(s[2]) < 16 then s[2..] else s
  }

  /** A number with optional leading space and sign, and what follows it. */
  function ScanNumber(s: string, base: nat): Option<(int, string)> {
    var t := SkipSpace(s);
    var signed := t != "" && (t[0] == '-' || t[0] == '+');
    var u := SkipPrefix(if signed then t[1..] else t, base);
    if !StartsWithDigit(u, base) then None
    else
      var (n, rest) := ScanDigits(u, base, 0);
      Some((if signed && t[0] == '-' then -(n as int) else n, rest))
  }

  /** `strtol`, without looking where it stopped. */
  function StrToL(s: string, base: nat): int {
    match ScanNumber(s, base)
    case None => 0
    case Some(r) => r.0
  }

  lemma DigitsStep(n: nat, base: nat)
    requires base == 10 || base == 16
    ensures n < base ==> Digits(n, base) == [DigitChar(n)]
    ensures n >= base ==> Digits(n, base) == Digits(n / base, base) + [DigitChar(n % base)] && n / base < n
    ensures n / base * base + n % base == n
  {
    if base == 10 {
      assert n / 10 * 10 + n % 10 == n;
    } else {
      assert n / 16 * 16 + n % 16 == n;
    }
  }

  lemma ScanStops(s: string, base: nat, acc: nat)
    requires !StartsWithDigit(s, base)
    ensures ScanDigits(s, base, acc) == (acc, s)
  {
  }

  lemma ScanOne(d: nat, base: nat, rest: string, acc: nat)
    requires (base == 10 || base == 16) && d < base
    ensures ScanDigits([DigitChar(d)] + rest, base, acc) == ScanDigits(rest, base, acc * base + d)
  {
    assert ([DigitChar(d)] + rest)[1..] == rest;
  }

  lemma {:induction false} DigitsBack(n: nat, base: nat, rest: string)
    requires base == 10 || base == 16
    ensures ScanDigits(Digits(n, base) + rest, base, 0) == ScanDigits(rest, base, n)
    decreases n
  {
    hide ScanDigits, DigitChar, Digits;
    DigitsStep(n, base);
    var q, d := n / base, n % base;
    if n < base {
      ScanOne(n, base, rest, 0);
    } else {
      ScanOne(d, base, rest, q);
      var u := [DigitChar(d)] + rest;
      DigitsBack(q, base, u);
      assert Digits(q, base) + [DigitChar(d)] + rest == Digits(q, base) + u;
    }
  }

  /** A printed number reads back, up to the first character that is no digit. */
  lemma NumberBack(n: nat, base: nat, rest: string)
    requires base == 10 || base == 16
    requires !StartsWithDigit(rest, base) && (base == 16 ==> rest == "")
    ensures ScanNumber(Digits(n, base) + rest, base) == Some((n, rest))
  {
    hide Digits, ScanDigits;
    DigitsBack(n, base, rest);
    ScanStops(rest, base, n);
    var d := Digits(n, base);
    var s := d + rest;
    assert s[0] in d;
    assert |d| > 1 ==> s[1] in d;
  }

  lemma DecBack(n: int, rest: string)
    requires !StartsWithDigit(rest, 10)
    ensures ScanNumber(Dec(n) + rest, 10) == Some((n, rest))
  {
    hide Digits, ScanDigits;
    if n < 0 {
      var s := Dec(n) + rest;
      var d := Digits(-n, 10);
      DigitsBack(-n, 10, rest);
      ScanStops(rest, 10, -n);
      assert s[1..] == d + rest;
      assert (d + rest)[0] in d;
    } else {
      NumberBack(n, 10, rest);
    }
  }

  /** The powers of ten bound the digits of a number. */
  function Power10(k: nat): nat {
    if k == 0 then 1 else 10 * Power10(k - 1)
  }

  lemma PowerOfTen()
    ensures Power10(4) == 1_0000 && Power10(5) == 1_00000 && Power10(10) == 1_00000_00000
  {
    assert Power10(4) == 10 * Power10(3) && Power10(3) == 10 * Power10(2) && Power10(2) == 10 * Power10(1);
    assert Power10(5) == 10 * Power10(4) && Power10(6) == 10 * Power10(5) && Power10(7) == 10 * Power10(6);
    assert Power10(8) == 10 * Power10(7) && Power10(9) == 10 * Power10(8) && Power10(10) == 10 * Power10(9);
  }

  lemma {:induction false} DigitsShort(n: nat, k: nat)
    requires 1 <= k && n < Power10(k)
    ensures |Digits(n, 10)| <= k
    decreases k
  {
    DigitsStep(n, 10);
    hide Digits;
    if n >= 10 {
      DigitsShort(n / 10, k - 1);
    }
  }

  /** The first digits of a number are those of a smaller one. */
  lemma {:induction false} DigitsPrefix(n: nat, m: nat) returns (q: nat)
    requires 1 <= m < |Digits(n, 10)|
    ensures 0 < q < n && Digits(q, 10) == Digits(n, 10)[..m]
    decreases n
  {
    DigitsStep(n, 10);
    hide Digits;
    q := n / 10;
    if m < |Digits(q, 10)| {
      q := DigitsPrefix(n / 10, m);
    }
  }

  lemma OneDigitMore(n: nat, d: nat)
    requires 0 < n && d < 10
    ensures Digits(10 * n + d, 10) == Digits(n, 10) + [DigitChar(d)]
  {
    DigitsStep(10 * n + d, 10);
    hide Digits;
  }

  lemma {:induction false} DecPrefix(n: int, m: nat) returns (q: int)
    requires 2 <= m < |Dec(n)|
    ensures q != 0 && q != n && Dec(q) == Dec(n)[..m]
  {
    if n < 0 {
      var p: int := DigitsPrefix(-n, m - 1);
      q := -p;
    } else {
      q := DigitsPrefix(n, m);
    }
  }

  lemma DecPlain(n: int, c: char)
    ensures c in Dec(n) ==> c == '-' || '0' <= c <= '9'
  {
    var m := if n < 0 then -n else n;
    assert forall x :: x in Digits(m, 10) ==> DigitValue(x) < 10;
  }

  // ---------------------------------------------------------------------------
  // sscanf
  // ---------------------------------------------------------------------------

  datatype Value = Text(s: string) | Number(n: int)

  /** `%a[^:]` or `%d`, and what must follow it: a colon, a colon after optional space, or
      just optional space. */
  datatype Conversion = AnyText | AnyNumber
  datatype Separator = Colon | SpaceColon | Space

  function UntilColon(s: string): (i: nat)
    ensures i <= |s| && ':' !in s[..i] && (i < |s| ==> s[i] == ':')
  {
    if s == "" || s[0] == ':' then 0 else 1 + UntilColon(s[1..])
  }

  lemma {:induction false} UntilColonBack(s: string, rest: string)
    requires ':' !in s && rest != "" && rest[0] == ':'
    ensures UntilColon(s + rest) == |s|
  {
    if s != "" {
      assert (s + rest)[1..] == s[1..] + rest;
      UntilColonBack(s[1..], rest);
    } else {
      assert s + rest == rest;
    }
  }

  function Convert(s: string, c: Conversion): Option<(Value, string)> {
    match c
    case AnyText =>
      var i := UntilColon(s);
      if i == 0 then None else Some((Text(s[..i]), s[i..]))
    case AnyNumber =>
      match ScanNumber(s, 10)
      case None => None
      case Some(r) => Some((Number(r.0), r.1))
  }

  function Separate(s: string, p: Separator): Option<string> {
    var t := if p == Colon then s else SkipSpace(s);
    if p == Space then Some(t)
    else if t != "" && t[0] == ':' then Some(t[1..])
    else None
  }

  /** The values converted before the first mismatch. */
  function Scanf(s: string, format: seq<(Conversion, Separator)>): seq<Value>
    decreases |format|
  {
    if format == [] then []
    else
      match Convert(s, format[0].0)
      case None => []
      case Some((v, rest)) =>
        [v] + match Separate(rest, format[0].1)
              case None => []
              case Some(t) => Scanf(t, format[1..])
  }

  function Show(v: Value): string {
    match v
    case Text(s) => s
    case Number(n) => Dec(n)
  }

  /** Values joined by colons, with a newline at the end. */
  function ShowAll(vs: seq<Value>): string {
    if vs == [] then "\n"
    else if |vs| == 1 then Show(vs[0]) + "\n"
    else Show(vs[0]) + ":" + ShowAll(vs[1..])
  }

  /** A value that its conversion reads back. */
  predicate Matches(v: Value, c: Conversion) {
    match v
    case Text(s) => c == AnyText && s != "" && ':' !in s
    case Number(n) => c == AnyNumber
  }

  lemma ConvertBack(v: Value, c: Conversion, rest: string)
    requires Matches(v, c)
    requires c == AnyText ==> rest != "" && rest[0] == ':'
    requires c == AnyNumber ==> !StartsWithDigit(rest, 10)
    ensures Convert(Show(v) + rest, c) == Some((v, rest))
  {
    match v
    case Text(s) =>
      UntilColonBack(s, rest);
      assert (s + rest)[..|s|] == s && (s + rest)[|s|..] == rest;
    case Number(n) =>
      DecBack(n, rest);
  }

  lemma NewlineEndsNumber()
    ensures !StartsWithDigit("\n", 10)
  {
  }

  /** A text format: every conversion but the last is followed by a colon, possibly after
      space, and the last one is a number with optional space behind it. */
  predicate LineFormat(format: seq<(Conversion, Separator)>) {
    && |format| > 0 && format[|format| - 1] == (AnyNumber, Space)
    && forall i :: 0 <= i < |format| - 1 ==> format[i].1 != Space
  }

  /** `sscanf` undoes printing: every value comes back. */
  lemma {:induction false} ScanfBack(vs: seq<Value>, format: seq<(Conversion, Separator)>)
    requires LineFormat(format) && |vs| == |format|
    requires forall i :: 0 <= i < |vs| ==> Matches(vs[i], format[i].0)
    ensures Scanf(ShowAll(vs), format) == vs
    decreases |vs|
  {
    hide Convert, Show, Matches, Dec;
    if |vs| == 1 {
      NewlineEndsNumber();
      ConvertBack(vs[0], AnyNumber, "\n");
      assert Scanf("", []) == [];
      assert format[1..] == [];
    } else {
      var rest := ":" + ShowAll(vs[1..]);
      assert rest[0] == ':' && !StartsWithDigit(rest, 10);
      assert ShowAll(vs) == Show(vs[0]) + rest;
      ConvertBack(vs[0], format[0].0, rest);
      assert rest[1..] == ShowAll(vs[1..]);
      ScanfBack(vs[1..], format[1..]);
    }
  }

  // ---------------------------------------------------------------------------
  // Splitting
  // ---------------------------------------------------------------------------

  /** `strrchr`: where a character is last, or the length of the text. */
  function FindLast(s: string, c: char): (i: nat)
    ensures i <= |s| && (i < |s| ==> s[i] == c && c !in s[i + 1..])
    ensures i == |s| <==> c !in s
  {
    if s == "" then 0
    else
      var n := |s| - 1;
      if s[n] == c then n
      else
        var i := FindLast(s[..n], c);
        if i == n then |s| else i
  }

  lemma {:induction false} FindBack(a: string, c: char, b: string)
    requires c !in a
    ensures Find(a + [c] + b, c) == |a|
    ensures (a + [c] + b)[..|a|] == a && (a + [c] + b)[|a| + 1..] == b
  {
    if a != "" {
      assert (a + [c] + b)[1..] == a[1..] + [c] + b;
      FindBack(a[1..], c, b);
    }
  }

  lemma {:induction false} FindLastBack(a: string, c: char, b: string)
    requires c !in b
    ensures FindLast(a + [c] + b, c) == |a|
    ensures (a + [c] + b)[..|a|] == a && (a + [c] + b)[|a| + 1..] == b
    decreases |b|
  {
    var s := a + [c] + b;
    if b != "" {
      var n := |b| - 1;
      assert s[..|s| - 1] == a + [c] + b[..n];
      FindLastBack(a, c, b[..n]);
    }
  }

  /** `strtok_r` with a comma: runs of other characters. */
  function Tokens(s: string): (ts: seq<string>)
    decreases |s|
  {
    if s == "" then []
    else if s[0] == ',' then Tokens(s[1..])
    else
      var i := Find(s, ',');
      [s[..i]] + Tokens(s[i..])
  }

  function Join(ts: seq<string>): string {
    if ts == [] then "" else if |ts| == 1 then ts[0] else ts[0] + "," + Join(ts[1..])
  }

  predicate IsToken(t: string) {
    t != "" && ',' !in t
  }

  lemma TokensStep(t: string, rest: string)
    requires IsToken(t)
    ensures Tokens(t + [','] + rest) == [t] + Tokens(rest)
  {
    hide Find;
    FindBack(t, ',', rest);
    var s := t + [','] + rest;
    assert s[0] == t[0] && s[0] != ',';
    assert s[|t|..] == [','] + rest;
    assert s[|t|..][1..] == rest;
  }

  lemma {:induction false} TokensBack(ts: seq<string>)
    requires forall i :: 0 <= i < |ts| ==> IsToken(ts[i])
    ensures Tokens(Join(ts)) == ts
  {
    hide Tokens, Find;
    if |ts| == 1 {
      TokenAlone(ts[0]);
    } else if |ts| > 1 {
      TokensStep(ts[0], Join(ts[1..]));
      TokensBack(ts[1..]);
    } else {
      assert Tokens("") == [] by { TokensOfNothing(); }
    }
  }

  lemma TokensOfNothing()
    ensures Tokens("") == []
  {
  }

  lemma TokenAlone(t: string)
    requires IsToken(t)
    ensures Tokens(t) == [t]
  {
    hide Find;
    assert t[..|t|] == t && t[|t|..] == "";
    TokensOfNothing();
  }

  // ---------------------------------------------------------------------------
  // Lists of PIDs
  // ---------------------------------------------------------------------------

  /** One entry of a PID list; subtitles have no type. */
  datatype Track = Track(pid: int, lang: string, kind: int)

  /** What `IntArrayToString` prints for one entry. */
  function PrintTrack(t: Track, types: bool): (s: string)
    ensures s != ""
  {
    Dec(t.pid)
    + if t.pid == 0 then ""
      else (if t.lang != "" then "=" + t.lang else "")
           + (if types && t.kind != 0 then (if t.lang != "" then "" else "=") + "@" + Dec(t.kind) else "")
  }

  function Printed(ts: seq<Track>, types: bool): (s: seq<string>)
    ensures |s| == |ts|
  {
    seq(|ts|, i requires 0 <= i < |ts| => PrintTrack(ts[i], types))
  }

  /** A list with its terminating zero left out, or the zero alone if it is empty. */
  function PrintList(ts: seq<Track>, types: bool): string {
    if ts == [] then "0" else Join(Printed(ts, types))
  }

  /** `strn0cpy` into a language code of seven characters. */
  function Truncated(s: string): string {
    if |s| > 7 then s[..7] else s
  }

  /** One token of a list; without a type it gets the default one. */
  function ParseTrack(q: string, default: int, types: bool): Track {
    var i := Find(q, '=');
    if i == |q| then Track(StrToL(q, 10), "", default)
    else
      var l := q[i + 1..];
      var j := Find(l, '@');
      if types && j < |l| then Track(StrToL(q[..i], 10), Truncated(l[..j]), StrToL(l[j + 1..], 10))
      else Track(StrToL(q[..i], 10), Truncated(l), default)
  }

  /** The entries in front of the first zero PID. */
  function UpToZero(ts: seq<Track>): seq<Track> {
    if ts == [] || ts[0].pid == 0 then [] else [ts[0]] + UpToZero(ts[1..])
  }

  function ParseTokens(qs: seq<string>, max: nat, default: int, types: bool): seq<Track> {
    if qs == [] || max == 0 then [] else [ParseTrack(qs[0], default, types)] + ParseTokens(qs[1..], max - 1, default, types)
  }

  function ParseList(s: string, max: nat, default: int, types: bool): seq<Track> {
    UpToZero(ParseTokens(Tokens(s), max, default, types))
  }

  /** An entry that can be told from its text, but for a type of zero. */
  predicate TrackPlain(t: Track, types: bool) {
    && t.pid != 0 && |t.lang| <= 7
    && ',' !in t.lang && ';' !in t.lang && ':' !in t.lang
    && (if types then '@' !in t.lang else t.kind == 0)
  }

  /** An entry with the default type if it has none. */
  function WithDefault(t: Track, default: int): Track {
    if t.kind == 0 then t.(kind := default) else t
  }

  function AllWithDefault(ts: seq<Track>, default: int): (r: seq<Track>)
    ensures |r| == |ts| && forall i :: 0 <= i < |ts| ==> r[i] == WithDefault(ts[i], default)
  {
    seq(|ts|, i requires 0 <= i < |ts| => WithDefault(ts[i], default))
  }

  lemma NoDefault(ts: seq<Track>, default: int)
    requires forall i :: 0 <= i < |ts| ==> ts[i].kind != 0 || default == 0
    ensures AllWithDefault(ts, default) == ts
  {
  }

  lemma TrackIsToken(t: Track, types: bool)
    requires TrackPlain(t, types)
    ensures IsToken(PrintTrack(t, types)) && ';' !in PrintTrack(t, types) && ':' !in PrintTrack(t, types)
  {
    var s := PrintTrack(t, types);
    forall c | c in s
      ensures c != ',' && c != ';' && c != ':'
    {
      DecPlain(t.pid, c);
      DecPlain(t.kind, c);
    }
  }

  lemma DecReads(n: int)
    ensures StrToL(Dec(n), 10) == n && '=' !in Dec(n)
  {
    DecBack(n, "");
    assert Dec(n) + "" == Dec(n);
    DecPlain(n, '=');
  }

  /** What is printed behind the PID. */
  lemma TailPrinted(t: Track, types: bool)
    requires TrackPlain(t, types)
    ensures PrintTrack(t, types) ==
      if types && t.kind != 0 then Dec(t.pid) + ['='] + (t.lang + ['@'] + Dec(t.kind))
      else if t.lang != "" then Dec(t.pid) + ['='] + t.lang
      else Dec(t.pid)
  {
    hide Dec;
  }

  /** An entry comes back, with the default type if it has none. */
  lemma TrackBack(t: Track, default: int, types: bool)
    requires TrackPlain(t, types)
    ensures ParseTrack(PrintTrack(t, types), default, types) == WithDefault(t, default)
  {
    var p, k := Dec(t.pid), Dec(t.kind);
    hide Dec, StrToL, PrintTrack, Find;
    TailPrinted(t, types);
    DecReads(t.pid);
    DecReads(t.kind);
    if types && t.kind != 0 {
      FindBack(p, '=', t.lang + ['@'] + k);
      FindBack(t.lang, '@', k);
    } else if t.lang != "" {
      FindBack(p, '=', t.lang);
    } else {
      assert Find(p, '=') == |p|;
    }
  }

  lemma NotZero(t: Track, default: int, types: bool)
    requires TrackPlain(t, types)
    ensures WithDefault(t, default).pid != 0
  {
  }

  lemma {:induction false} TracksBack(ts: seq<Track>, max: nat, default: int, types: bool)
    requires |ts| <= max
    requires forall i :: 0 <= i < |ts| ==> TrackPlain(ts[i], types)
    ensures UpToZero(ParseTokens(Printed(ts, types), max, default, types)) == AllWithDefault(ts, default)
    decreases |ts|
  {
    hide PrintTrack, ParseTrack, TrackPlain, WithDefault;
    if ts != [] {
      NotZero(ts[0], default, types);
      TrackBack(ts[0], default, types);
      assert Printed(ts, types)[1..] == Printed(ts[1..], types);
      TracksBack(ts[1..], max - 1, default, types);
    }
  }

  /** A PID list of any length up to its limit comes back with its languages and types, and
      with the default type where there was none. */
  lemma ListBack(ts: seq<Track>, max: nat, default: int, types: bool)
    requires 0 < max && |ts| <= max
    requires forall i :: 0 <= i < |ts| ==> TrackPlain(ts[i], types)
    ensures ParseList(PrintList(ts, types), max, default, types) == AllWithDefault(ts, default)
  {
    if ts == [] {
      assert Tokens("0") == ["0"] by {
        assert "0"[..1] == "0" && "0"[1..] == "";
      }
      assert ScanNumber("0", 10) == Some((0, "")) by {
        NumberBack(0, 10, "");
        assert Digits(0, 10) + "" == "0";
      }
      assert ParseTrack("0", default, types).pid == 0;
    } else {
      var ps := Printed(ts, types);
      forall i | 0 <= i < |ps|
        ensures IsToken(ps[i])
      {
        TrackIsToken(ts[i], types);
      }
      TokensBack(ps);
      TracksBack(ts, max, default, types);
    }
  }

  /** PIDs with an optional language, as lists were written before they had types. */
  function Untyped(ps: seq<(int, string)>): (s: seq<string>)
    ensures |s| == |ps|
  {
    seq(|ps|, i requires 0 <= i < |ps| => Dec(ps[i].0) + if ps[i].1 == "" then "" else "=" + ps[i].1)
  }

  /** Every entry of such a list gets the default type. */
  lemma UntypedParses(ps: seq<(int, string)>, max: nat, default: int)
    requires 0 < |ps| <= max
    requires forall i :: 0 <= i < |ps| ==> TrackPlain(Track(ps[i].0, ps[i].1, 0), true)
    ensures var ts := ParseList(Join(Untyped(ps)), max, default, true);
      && |ts| == |ps|
      && forall i :: 0 <= i < |ps| ==> ts[i] == Track(ps[i].0, ps[i].1, default)
  {
    var ts := seq(|ps|, i requires 0 <= i < |ps| => Track(ps[i].0, ps[i].1, 0));
    hide Dec, ParseList, Join;
    forall i | 0 <= i < |ps|
      ensures PrintTrack(ts[i], true) == Untyped(ps)[i]
    {
      UntypedPrinted(ts[i]);
    }
    assert Printed(ts, true) == Untyped(ps);
    ListBack(ts, max, default, true);
  }

  lemma UntypedPrinted(t: Track)
    requires t.pid != 0 && t.kind == 0
    ensures PrintTrack(t, true) == Dec(t.pid) + if t.lang == "" then "" else "=" + t.lang
  {
    hide Dec;
  }
}
