/** How versions written with numbers compare: component by component as numbers, and behind
    equal components alpha, beta, pre, rc, no suffix, p. */
module VersionNumbers {
  import opened Common
  import opened VersionOrder

  /** A number in decimal. */
  function Decimal(n: nat): (s: string)
    ensures IsNumber(s)
  {
    if n < 10 then [('0' as int + n) as char] else Decimal(n / 10) + [('0' as int + n % 10) as char]
  }

  lemma WholeStep(s: string, d: nat)
    requires AllDigits(s) && d < 10
    ensures var t := s + [('0' as int + d) as char]; AllDigits(t) && Whole(t) == 10 * Whole(s) + d
  {
    var t := s + [('0' as int + d) as char];
    assert t[..|t| - 1] == s;
  }

  lemma {:induction false} DecimalReads(n: nat)
    ensures Whole(Decimal(n)) == n
    ensures Decimal(n)[0] == '0' ==> n == 0
    decreases n
  {
    if n < 10 {
      WholeStep("", n);
      assert Whole("") == 0;
      assert Decimal(n) == "" + [('0' as int + n) as char];
    } else {
      DecimalReads(n / 10);
      WholeStep(Decimal(n / 10), n % 10);
    }
  }

  /** Numbers with points between them. */
  function Dots(ns: seq<nat>): (s: string)
    requires ns != []
  {
    if |ns| == 1 then Decimal(ns[0]) else Decimal(ns[0]) + "." + Dots(ns[1..])
  }

  lemma {:induction false} DotsChars(ns: seq<nat>)
    requires ns != []
    ensures forall c :: c in Dots(ns) ==> c == '.' || IsDigit(c)
    decreases |ns|
  {
    if |ns| > 1 {
      DotsChars(ns[1..]);
    }
  }

  lemma {:induction false} SplitFirst(a: string, c: char, b: string)
    requires c !in a
    ensures Split(a + [c] + b, c) == [a] + Split(b, c)
    decreases |a|
  {
    var s := a + [c] + b;
    if a == "" {
      assert s[1..] == b;
    } else {
      assert s[1..] == a[1..] + [c] + b;
      SplitFirst(a[1..], c, b);
      assert [s[0]] + a[1..] == a;
    }
  }

  function Decimals(ns: seq<nat>): (cs: seq<string>)
    ensures |cs| == |ns|
  {
    seq(|ns|, i requires 0 <= i < |ns| => Decimal(ns[i]))
  }

  lemma {:induction false} DotsSplit(ns: seq<nat>)
    requires ns != []
    ensures Split(Dots(ns), '.') == Decimals(ns)
    decreases |ns|
  {
    hide Split, Decimal, IsNumber;
    NoPoint(Decimal(ns[0]));
    if |ns| == 1 {
      SplitAlone(Decimal(ns[0]), '.');
    } else {
      SplitFirst(Decimal(ns[0]), '.', Dots(ns[1..]));
      DotsSplit(ns[1..]);
    }
  }

  lemma NoPoint(s: string)
    requires IsNumber(s)
    ensures '.' !in s && '_' !in s
  {
  }

  /** The text behind the numbers: nothing, or a name and a number that may be missing. */
  datatype Suffix = Release | Named(name: string, number: Option<nat>)

  function SuffixText(s: Suffix): string {
    match s
    case Release => ""
    case Named(name, number) => "_" + name + if number.None? then "" else Decimal(number.value)
  }

  function Version(ns: seq<nat>, s: Suffix): string
    requires ns != []
  {
    Dots(ns) + SuffixText(s)
  }

  /** alpha, beta, pre and rc come before the release, and p does not. */
  function Place(s: Suffix): int {
    match s
    case Release => 0
    case Named(name, _) =>
      if name == "alpha" then -4 else if name == "beta" then -3 else if name == "pre" then -2 else if name == "rc" then -1 else 0
  }

  predicate Known(s: Suffix) {
    s.Named? ==> s.name in ["alpha", "beta", "pre", "rc", "p"]
  }

  function SuffixNumber(s: Suffix): nat {
    if s.Named? && s.number.Some? then s.number.value else 0
  }

  lemma HeadOf(ns: seq<nat>, s: Suffix)
    requires ns != []
    ensures Head(Version(ns, s)) == Dots(ns)
    ensures Prepart(Version(ns, s)) == if s.Release? then "" else SuffixText(s)[1..]
    ensures '_' in Version(ns, s) <==> s.Named?
  {
    hide Dots, SuffixText, Head, Prepart;
    DotsChars(ns);
    SuffixStarts(s);
    HeadOfText(Dots(ns), SuffixText(s));
  }

  lemma SuffixStarts(s: Suffix)
    ensures if s.Release? then SuffixText(s) == "" else SuffixText(s) != "" && SuffixText(s)[0] == '_'
  {
    hide Decimal;
  }

  lemma HeadOfText(d: string, t: string)
    requires '_' !in d && (t != "" ==> t[0] == '_')
    ensures Head(d + t) == d && Prepart(d + t) == (if t == "" then "" else t[1..]) && ('_' in d + t <==> t != "")
  {
    hide Find;
    if t == "" {
      assert d + t == d;
      NotFound(d, '_');
    } else {
      FoundBehind(d, '_', t[1..]);
      assert d + t == d + ['_'] + t[1..];
      assert (d + t)[|d|] == '_';
    }
  }

  lemma NotFound(s: string, c: char)
    requires c !in s
    ensures Find(s, c) == |s| && s[..|s|] == s
  {
  }

  lemma {:induction false} FoundBehind(a: string, c: char, b: string)
    requires c !in a
    ensures var s := a + [c] + b; Find(s, c) == |a| && s[..|a|] == a && s[|a| + 1..] == b
  {
    if a != "" {
      assert (a + [c] + b)[1..] == a[1..] + [c] + b;
      FoundBehind(a[1..], c, b);
    }
  }

  function Digits(s: Suffix): string {
    if s.Named? && s.number.Some? then Decimal(s.number.value) else ""
  }

  lemma PrepartIs(ns: seq<nat>, s: Suffix)
    requires ns != [] && s.Named?
    ensures Prepart(Version(ns, s)) == s.name + Digits(s)
  {
    HeadOf(ns, s);
    hide Prepart, Version, Decimal, Head;
    BehindFirst(s.name + Digits(s));
    Joined(s.name, Digits(s));
  }

  lemma BehindFirst(t: string)
    ensures ("_" + t)[1..] == t
  {
  }

  lemma Joined(a: string, b: string)
    ensures "_" + a + b == "_" + (a + b)
  {
  }

  lemma EndStep(s: string, i: nat)
    requires i < 8
    ensures EndOf(s, i) == if StartsWith(s, ENDS[i]) then i else EndOf(s, i + 1)
  {
  }

  lemma Ends()
    ensures ENDS[0] == "pre" && ENDS[1] == "p" && ENDS[2] == "alpha" && ENDS[3] == "beta" && ENDS[4] == "rc"
  {
  }

  lemma Starts(s: string, name: string, digits: string)
    requires s == name + digits
    ensures StartsWith(s, name) && s[|name|..] == digits
  {
    assert s[..|name|] == name;
  }

  lemma OtherStart(s: string, x: string)
    requires x != "" && (s == "" || s[0] != x[0])
    ensures !StartsWith(s, x)
  {
  }

  /** `p` is found although `pre` is looked for first. */
  lemma OneLetter(s: string, digits: string)
    requires AllDigits(digits) && s == "p" + digits
    ensures !StartsWith(s, "pre")
  {
    if |s| >= 3 {
      assert s[1] == digits[0] && digits[0] in digits;
      assert s[..3][1] == s[1];
    }
  }

  /** A known name is found, whatever its number is. */
  lemma NameFound(name: string, digits: string)
    requires AllDigits(digits) && name in ["alpha", "beta", "pre", "rc", "p"]
    ensures var e := EndOf(name + digits, 0);
      e < 8 && ENDS[e] == name && (name + digits)[|name|..] == digits
  {
    var s := name + digits;
    Ends();
    Starts(s, name, digits);
    EndStep(s, 0);
    EndStep(s, 1);
    EndStep(s, 2);
    EndStep(s, 3);
    EndStep(s, 4);
    assert s[0] == name[0];
    if name == "p" {
      OneLetter(s, digits);
    } else if name != "pre" {
      OtherStart(s, "pre");
      OtherStart(s, "p");
      if name != "alpha" {
        OtherStart(s, "alpha");
        if name != "beta" {
          OtherStart(s, "beta");
        }
      }
    }
    hide EndOf, StartsWith, ENDS;
  }

  lemma DecimalFloat(n: nat)
    ensures Float(Decimal(n)) == Some(n as real)
    ensures Float(Dotted(1, Decimal(n))) == Some(n as real)
  {
    DecimalReads(n);
    if Decimal(n)[0] == '0' {
      assert Decimal(0) == "0";
      assert Dotted(1, "0") == ".0" && ".0"[1..] == "0";
      assert Fraction("0") == 0.0 by {
        assert "0"[1..] == "";
        assert Fraction("") == 0.0;
      }
    }
  }

  lemma SuffixWorth(ns: seq<nat>, s: Suffix)
    requires ns != [] && Known(s)
    ensures WeightOf(Version(ns, s)) == Place(s) && NumberOf(Version(ns, s)) == SuffixNumber(s) as real
    ensures Weighted(Version(ns, s)) && (s.Named? ==> SuffixOk(Prepart(Version(ns, s))))
  {
    hide Version, Float, Decimal, Prepart, EndOf, Weight, ENDS, Digits, Known, Place;
    HeadOf(ns, s);
    if s.Named? {
      PrepartIs(ns, s);
      KnownName(s);
      NameFound(s.name, Digits(s));
      DigitsWorth(s);
    } else {
      assert Place(s) == 0 by { NoSuffix(s); }
    }
  }

  lemma NoSuffix(s: Suffix)
    requires s.Release?
    ensures Place(s) == 0
  {
  }

  lemma KnownName(s: Suffix)
    requires Known(s) && s.Named?
    ensures s.name in ["alpha", "beta", "pre", "rc", "p"] && Weight(s.name) == Some(Place(s)) && AllDigits(Digits(s))
  {
  }

  lemma DigitsWorth(s: Suffix)
    requires s.Named?
    ensures var p2 := Float(Digits(s)); (if p2.Some? then p2.value else 0.0) == SuffixNumber(s) as real
  {
    hide Float, Decimal;
    DecimalFloat(SuffixNumber(s));
    NoFloat();
  }

  lemma NoFloat()
    ensures Float("") == None
  {
  }

  lemma NumbersPairs(ns: seq<nat>, s: Suffix)
    requires ns != []
    ensures Pairs(Version(ns, s)) == seq(|ns|, i requires 0 <= i < |ns| => Pair(ns[i] as real, 0))
  {
    hide Find;
    var v := Version(ns, s);
    HeadOf(ns, s);
    DotsSplit(ns);
    hide Version, Head, Prepart, SuffixText, Dots, Split, Plain, Float, Decimal, Dotted;
    forall i | 0 <= i < |ns|
      ensures PairOf(Components(v)[i]) == Pair(ns[i] as real, 0)
    {
      DottedWorth(ns[i], i);
    }
  }

  lemma DottedWorth(n: nat, i: nat)
    ensures PairOf(Dotted(i, Decimal(n))) == Pair(n as real, 0)
  {
    hide Float, Decimal, Plain;
    DecimalFloat(n);
    NumberComponent(Decimal(n), i);
    assert i > 0 ==> Dotted(i, Decimal(n)) == Dotted(1, Decimal(n));
  }

  /** A single component: its number, then its letter or the place of its suffix, then the
      number of the suffix. */
  lemma ComponentWorth(n: nat, c: char, s: Suffix)
    requires Letter(c) && Known(s)
    ensures RelParse(Decimal(n) + [c]) == Some(Triple(n as real, c as int, 0.0))
    ensures RelParse(Decimal(n) + SuffixText(s)) == Some(Triple(n as real, Place(s), SuffixNumber(s) as real))
  {
    hide Float, Decimal, RelParse, IsNumber, Place, Known;
    DecimalFloat(n);
    NoPoint(Decimal(n));
    LetterWorth(Decimal(n), c);
    if s.Named? {
      SuffixComponent(n, s);
    } else {
      NoSuffix(s);
      NumberWorth(n);
      assert Decimal(n) + "" == Decimal(n);
    }
  }

  lemma NumberWorth(n: nat)
    ensures RelParse(Decimal(n)) == Some(Triple(n as real, 0, 0.0))
  {
    hide Float, Decimal, RelParse;
    DecimalFloat(n);
    NoPoint(Decimal(n));
    ParsesPlain(Decimal(n));
    assert Decimal(n)[|Decimal(n)| - 1] in Decimal(n);
  }

  lemma LetterWorth(d: string, c: char)
    requires Letter(c) && '_' !in d && Float(d).Some?
    ensures RelParse(d + [c]) == Some(Triple(Float(d).value, c as int, 0.0))
  {
    hide Float, RelParse;
    ParsesPlain(d + [c]);
    assert (d + [c])[..|d|] == d;
  }

  lemma SuffixComponent(n: nat, s: Suffix)
    requires Known(s) && s.Named?
    ensures RelParse(Decimal(n) + SuffixText(s)) == Some(Triple(n as real, Place(s), SuffixNumber(s) as real))
  {
    hide Float, Decimal, RelParse, Place, Known, EndOf, Weight, ENDS, IsNumber, Digits;
    DecimalFloat(n);
    NoPoint(Decimal(n));
    KnownName(s);
    NameFound(s.name, Digits(s));
    DigitsWorth(s);
    NamePlain(s);
    ParsesSuffix(Decimal(n), s.name + Digits(s));
    SuffixJoined(Decimal(n), s);
  }

  lemma SuffixJoined(d: string, s: Suffix)
    requires s.Named?
    ensures d + SuffixText(s) == d + "_" + (s.name + Digits(s))
  {
    hide Decimal;
    Joined(s.name, Digits(s));
    Associated(d, "_", s.name + Digits(s));
  }

  lemma Associated(a: string, b: string, c: string)
    ensures a + (b + c) == a + b + c
  {
  }

  lemma NamePlain(s: Suffix)
    requires Known(s) && s.Named?
    ensures '_' !in s.name + Digits(s)
  {
    KnownName(s);
    hide Digits;
  }

  lemma NumbersAreVersion(ns: seq<nat>, s: Suffix)
    requires ns != [] && Known(s)
    ensures IsVersion(Version(ns, s)) && Weighted(Version(ns, s))
  {
    hide Version, Head, Dots, Split, Decimal, Decimals, SuffixOk, Prepart, IsNumber, Weighted, WeightOf, NumberOf, Known;
    HeadOf(ns, s);
    DotsSplit(ns);
    SuffixWorth(ns, s);
    DecimalsAreNumbers(ns);
  }

  lemma DecimalsAreNumbers(ns: seq<nat>)
    ensures forall i :: 0 <= i < |ns| ==> IsNumber(Decimals(ns)[i])
  {
    hide Decimal, IsNumber;
  }

  /** Missing components count as zero. */
  function NumberAt(ns: seq<nat>, x: nat): nat {
    if x < |ns| then ns[x] else 0
  }

  lemma NumberAtIs(ns: seq<nat>, s: Suffix, x: nat)
    requires ns != []
    ensures At(Pairs(Version(ns, s)), x) == Pair(NumberAt(ns, x) as real, 0)
  {
    hide Pairs;
    NumbersPairs(ns, s);
  }

  lemma {:induction false} PairsFirst(a: seq<Pair>, b: seq<Pair>, y: nat, x: nat, n: nat)
    requires y <= x < n && forall z :: y <= z < x ==> At(a, z) == At(b, z)
    ensures PairSign(At(a, x), At(b, x)) != 0 ==> PairsSign(a, b, y, n) == PairSign(At(a, x), At(b, x))
    decreases x - y
  {
    if y < x {
      assert At(a, y) == At(b, y);
      PairsFirst(a, b, y + 1, x, n);
    }
  }

  /** The first numbers that differ decide, as numbers, whatever the suffixes are. */
  lemma FirstNumberDecides(ns: seq<nat>, ms: seq<nat>, s: Suffix, t: Suffix, x: nat)
    requires ns != [] && ms != [] && Known(s) && Known(t)
    requires NumberAt(ns, x) < NumberAt(ms, x) && forall y: nat :: y < x ==> NumberAt(ns, y) == NumberAt(ms, y)
    ensures Compared(Version(ns, s), Version(ms, t)).Some? && Compared(Version(ns, s), Version(ms, t)).value < 0.0
    ensures Compared(Version(ms, t), Version(ns, s)).Some? && Compared(Version(ms, t), Version(ns, s)).value > 0.0
  {
    var v, w := Version(ns, s), Version(ms, t);
    forall y: nat
      ensures At(Pairs(v), y) == Pair(NumberAt(ns, y) as real, 0) && At(Pairs(w), y) == Pair(NumberAt(ms, y) as real, 0)
    {
      NumberAtIs(ns, s, y);
      NumberAtIs(ms, t, y);
    }
    NumbersPairs(ns, s);
    NumbersPairs(ms, t);
    NumbersAreVersion(ns, s);
    NumbersAreVersion(ms, t);
    hide Version, Pairs, Compared, IsVersion, Weighted, PairsSign;
    PairsFirst(Pairs(v), Pairs(w), 0, x, Max(|Pairs(v)|, |Pairs(w)|));
    Total(v, w);
    SignIsKeyOrder(v, w);
    Antisymmetric(v, w);
  }

  lemma {:induction false} PairsSame(a: seq<Pair>, b: seq<Pair>, y: nat, n: nat)
    requires y <= n && forall z :: y <= z < n ==> At(a, z) == At(b, z)
    ensures PairsSign(a, b, y, n) == 0
    decreases n - y
  {
    if y < n {
      assert At(a, y) == At(b, y);
      PairsSame(a, b, y + 1, n);
    }
  }

  /** Behind equal numbers the names decide, and behind equal names their numbers. */
  lemma SuffixDecides(ns: seq<nat>, ms: seq<nat>, s: Suffix, t: Suffix)
    requires ns != [] && ms != [] && Known(s) && Known(t) && forall y: nat :: NumberAt(ns, y) == NumberAt(ms, y)
    ensures var r := Compared(Version(ns, s), Version(ms, t));
      && r.Some?
      && (r.value < 0.0 <==> Place(s) < Place(t) || (Place(s) == Place(t) && SuffixNumber(s) < SuffixNumber(t)))
      && (r.value > 0.0 <==> Place(s) > Place(t) || (Place(s) == Place(t) && SuffixNumber(s) > SuffixNumber(t)))
  {
    var v, w := Version(ns, s), Version(ms, t);
    forall y: nat
      ensures At(Pairs(v), y) == At(Pairs(w), y)
    {
      NumberAtIs(ns, s, y);
      NumberAtIs(ms, t, y);
    }
    SuffixWorth(ns, s);
    SuffixWorth(ms, t);
    NumbersAreVersion(ns, s);
    NumbersAreVersion(ms, t);
    hide Version, Pairs, Compared, IsVersion, Weighted, PairsSign, WeightOf, NumberOf;
    PairsSame(Pairs(v), Pairs(w), 0, Max(|Pairs(v)|, |Pairs(w)|));
    Total(v, w);
    SignIsKeyOrder(v, w);
  }

  /** Nine is below ten, although the digit is not, and a beta is below its release. */
  lemma NineBelowTen()
    ensures Compared("1.9", "1.10").Some? && Compared("1.9", "1.10").value < 0.0
    ensures Compared("2_beta", "2").Some? && Compared("2_beta", "2").value < 0.0
  {
    assert Dots([9]) == "9" && Dots([10]) == "10";
    assert Version([1, 9], Release) == "1.9" && Version([1, 10], Release) == "1.10";
    assert Version([2], Named("beta", None)) == "2_beta" && Version([2], Release) == "2";
    hide Version, Compared;
    FirstNumberDecides([1, 9], [1, 10], Release, Release, 1);
    SuffixDecides([2], [2], Named("beta", None), Release);
  }

  /** Of two packages the version numbers decide first, and then the numbers of the revisions. */
  lemma PackagesDecide(p: Package, q: Package, ns: seq<nat>, ms: seq<nat>, m: nat, n: nat, x: nat)
    requires ns != [] && ms != [] && p.version == Version(ns, Release) && q.version == Version(ms, Release)
    requires p.revision == "r" + Decimal(m) && q.revision == "r" + Decimal(n)
    requires forall y: nat :: y < x ==> NumberAt(ns, y) == NumberAt(ms, y)
    ensures PackageOk(p) && PackageOk(q)
    ensures NumberAt(ns, x) < NumberAt(ms, x) ==> PackagesCompared(p, q) == Some(-1) && PackagesCompared(q, p) == Some(1)
    ensures ns == ms ==> PackagesCompared(p, q) == Some(if m < n then -1 else if m > n then 1 else 0)
  {
    NumbersAreVersion(ns, Release);
    NumbersAreVersion(ms, Release);
    DecimalReads(m);
    DecimalReads(n);
    assert p.revision[1..] == Decimal(m) && q.revision[1..] == Decimal(n);
    hide Version, IsVersion, Decimal, Whole, IsNumber, AllDigits, NumberAt;
    if NumberAt(ns, x) < NumberAt(ms, x) {
      hide Compared;
      FirstNumberDecides(ns, ms, Release, Release, x);
    }
  }

  // ---------------------------------------------------------------------------
  // Components with a leading zero
  // ---------------------------------------------------------------------------

  function Power(n: nat): nat {
    if n == 0 then 1 else 10 * Power(n - 1)
  }

  lemma {:induction false} WholeFirst(s: string)
    requires s != "" && AllDigits(s)
    ensures IsDigit(s[0]) && AllDigits(s[1..]) && Whole(s) == Power(|s| - 1) * (s[0] as int - '0' as int) + Whole(s[1..])
    decreases |s|
  {
    hide Power;
    assert s[0] in s;
    var n := |s| - 1;
    assert s[n] in s;
    WholeLast(s);
    Powers(n);
    if n == 0 {
      assert s[..0] == "" && s[1..] == "";
      assert Whole("") == 0;
    } else {
      var t := s[..n];
      assert AllDigits(t);
      WholeFirst(t);
      assert AllDigits(s[1..]);
      WholeLast(s[1..]);
      assert s[1..][..n - 1] == t[1..];
      Tenfold(Power(n - 1), s[0] as int - '0' as int, Whole(t[1..]));
    }
  }

  lemma Powers(n: nat)
    ensures Power(0) == 1 && (n > 0 ==> Power(n) == 10 * Power(n - 1))
  {
  }

  lemma Tenfold(p: nat, d: int, w: int)
    ensures 10 * (p * d + w) == 10 * p * d + 10 * w
  {
  }

  lemma WholeLast(s: string)
    requires s != "" && AllDigits(s)
    ensures s[|s| - 1] in s && AllDigits(s[..|s| - 1])
    ensures Whole(s) == 10 * Whole(s[..|s| - 1]) + (s[|s| - 1] as int - '0' as int)
  {
  }

  predicate Worth(f: real, p: nat, w: int) {
    f * p as real == w as real
  }

  lemma {:induction false} FractionWorth(s: string)
    requires AllDigits(s)
    ensures Worth(Fraction(s), Power(|s|), Whole(s))
    decreases |s|
  {
    if s == "" {
      assert Power(0) == 1;
    } else {
      hide Power, Fraction, Whole, Worth;
      Powers(|s|);
      WholeFirst(s);
      FractionFirst(s);
      FractionWorth(s[1..]);
      Scaled(s[0] as int - '0' as int, Fraction(s[1..]), Power(|s| - 1), Whole(s[1..]));
    }
  }

  /** Behind a point the digits are worth their number divided by a power of ten. */
  lemma {:induction false} FractionIs(s: string)
    requires AllDigits(s)
    ensures Fraction(s) * Power(|s|) as real == Whole(s) as real
  {
    hide Power, Fraction, Whole;
    FractionWorth(s);
  }

  lemma FractionFirst(s: string)
    requires s != "" && AllDigits(s)
    ensures AllDigits(s[1..]) && Fraction(s) == ((s[0] as int - '0' as int) as real + Fraction(s[1..])) / 10.0
  {
    assert s[0] in s;
  }

  lemma Scaled(d: int, f: real, p: nat, w: int)
    requires Worth(f, p, w)
    ensures Worth((d as real + f) / 10.0, 10 * p, p * d + w)
  {
    var q := p as real;
    assert (10 * p) as real == 10.0 * q;
    Cancelled(d as real + f, q);
    Distributed(d as real, f, q);
    assert (p * d) as real == q * d as real;
  }

  lemma Cancelled(a: real, q: real)
    ensures a / 10.0 * (10.0 * q) == a * q
  {
  }

  lemma Distributed(a: real, b: real, q: real)
    ensures (a + b) * q == q * a + b * q
  {
  }
}
