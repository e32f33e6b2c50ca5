/** Package versions: how two of them are compared component by component, and the order
    this gives. */
module VersionOrder {
  import opened Common

  /** A number, a letter or the weight of a suffix, and the number of a suffix. */
  datatype Triple = Triple(number: real, p1: int, p2: real)

  // ---------------------------------------------------------------------------
  // Text
  // ---------------------------------------------------------------------------

  predicate IsDigit(c: char) {
    '0' <= c <= '9'
  }

  predicate AllDigits(s: string) {
    forall c :: c in s ==> IsDigit(c)
  }

  /** Splits at every `c`. */
  function Split(s: string, c: char): (r: seq<string>)
    ensures r != []
  {
    if s == "" then [""]
    else
      var rest := Split(s[1..], c);
      if s[0] == c then [""] + rest else [[s[0]] + rest[0]] + rest[1..]
  }

  function Whole(s: string): nat
    requires AllDigits(s)
  {
    if s == "" then 0
    else
      assert s[|s| - 1] in s;
      10 * Whole(s[..|s| - 1]) + (s[|s| - 1] as int - '0' as int)
  }

  function Fraction(s: string): real
    requires AllDigits(s)
  {
    if s == "" then 0.0 else ((s[0] as int - '0' as int) as real + Fraction(s[1..])) / 10.0
  }

  /** `float`, for the texts that occur: digits, and digits behind a point. */
  function Float(s: string): Option<real> {
    if s == "" then None
    else if AllDigits(s) then Some(Whole(s) as real)
    else if s[0] == '.' && s != "." && AllDigits(s[1..]) then Some(Fraction(s[1..]))
    else None
  }

  // ---------------------------------------------------------------------------
  // One component
  // ---------------------------------------------------------------------------

  const ENDS: seq<string> := ["pre", "p", "alpha", "beta", "rc", "cvs", "bk", "HEAD"]

  /** The weight of a suffix name; three of the known names have none. */
  function Weight(x: string): Option<int> {
    if x == "pre" then Some(-2) else if x == "p" then Some(0) else if x == "alpha" then Some(-4)
    else if x == "beta" then Some(-3) else if x == "rc" then Some(-1) else None
  }

  predicate StartsWith(s: string, x: string) {
    |x| <= |s| && s[..|x|] == x
  }

  /** The first known name a suffix starts with. */
  function EndOf(s: string, i: nat): nat
    requires i <= 8
    decreases 8 - i
  {
    if i == 8 || StartsWith(s, ENDS[i]) then i else EndOf(s, i + 1)
  }

  /** A number with an optional letter behind it. */
  function Plain(s: string): Option<Triple> {
    if s == "" then None
    else
      var d := |s| - 1;
      if IsDigit(s[d]) then
        match Float(s) { case None => None case Some(n) => Some(Triple(n, 0, 0.0)) }
      else
        match Float(s[..d]) { case None => None case Some(n) => Some(Triple(n, s[d] as int, 0.0)) }
  }

  /** `relparse`; nothing where it raises an exception. */
  function RelParse(s: string): Option<Triple> {
    var parts := Split(s, '_');
    if |parts| == 2 then
      var e := EndOf(parts[1], 0);
      if Float(parts[0]).None? then None
      else if e == 8 then Plain(s)
      else if Weight(ENDS[e]).None? then None
      else
        var p2 := Float(parts[1][|ENDS[e]|..]);
        Some(Triple(Float(parts[0]).value, Weight(ENDS[e]).value, if p2.Some? then p2.value else 0.0))
    else Plain(s)
  }

  // ---------------------------------------------------------------------------
  // Two versions
  // ---------------------------------------------------------------------------

  /** What is in front of the first underscore, and what is behind it. */
  function Head(v: string): string {
    v[..Find(v, '_')]
  }

  function Prepart(v: string): string {
    var i := Find(v, '_');
    if i < |v| then v[i + 1..] else ""
  }

  /** A component behind the first one keeps its leading zero as a fraction. */
  function Dotted(x: nat, c: string): string {
    if x > 0 && c != "" && c[0] == '0' then "." + c else c
  }

  function Components(v: string): (r: seq<string>)
    ensures r != []
  {
    var cs := Split(Head(v), '.');
    seq(|cs|, x requires 0 <= x < |cs| => Dotted(x, cs[x]))
  }

  function Zeros(n: nat): (r: seq<string>)
    ensures |r| == n
  {
    seq(n, _ => "0")
  }

  function Extended(cs: seq<string>, n: nat): (r: seq<string>)
    ensures |r| == if |cs| < n then n else |cs|
  {
    cs + Zeros(if |cs| < n then n - |cs| else 0)
  }

  /** The suffix is put back behind the last component. */
  function Suffixed(cs: seq<string>, prepart: string): (r: seq<string>)
    requires cs != []
    ensures |r| == |cs|
  {
    if prepart == "" then cs else cs[|cs| - 1 := cs[|cs| - 1] + "_" + prepart]
  }

  /** The components of a version for a comparison of `n` components. */
  function Prepared(v: string, n: nat): (r: seq<string>)
    ensures r != []
  {
    Suffixed(Extended(Components(v), n), Prepart(v))
  }

  function Difference(a: Triple, b: Triple): real {
    if a.number != b.number then a.number - b.number
    else if a.p1 != b.p1 then (a.p1 - b.p1) as real
    else a.p2 - b.p2
  }

  /** The first difference of two lists of components from `x` on; nothing where parsing
      one of them raises an exception. */
  function FirstDifference(a: seq<string>, b: seq<string>, x: nat): Option<real>
    requires |a| == |b| && x <= |a|
    decreases |a| - x
  {
    if x == |a| then Some(0.0)
    else
      var c, d := RelParse(a[x]), RelParse(b[x]);
      if c.None? || d.None? then None
      else if Difference(c.value, d.value) != 0.0 then Some(Difference(c.value, d.value))
      else FirstDifference(a, b, x + 1)
  }

  function Max(a: nat, b: nat): nat {
    if a < b then b else a
  }

  /** `vercmp` without its memory. */
  function Compared(v: string, w: string): Option<real> {
    if v == w then Some(0.0)
    else
      var n := Max(|Components(v)|, |Components(w)|);
      FirstDifference(Prepared(v, n), Prepared(w, n), 0)
  }

  // ---------------------------------------------------------------------------
  // Versions
  // ---------------------------------------------------------------------------

  predicate IsNumber(s: string) {
    s != "" && AllDigits(s)
  }

  predicate Letter(c: char) {
    'a' <= c <= 'z'
  }

  /** The last component: a number, or without a suffix a number and a letter. */
  predicate LastOk(s: string, suffix: bool) {
    IsNumber(s) || (!suffix && s != "" && Letter(s[|s| - 1]) && IsNumber(s[..|s| - 1]))
  }

  /** A known name with an optional number behind it. */
  predicate SuffixOk(s: string) {
    var e := EndOf(s, 0);
    e < 8 && AllDigits(s[|ENDS[e]|..])
  }

  /** A version as it is documented: numbers with points between them, and at the end a
      letter or a suffix. */
  predicate IsVersion(v: string) {
    var cs := Split(Head(v), '.');
    && (forall x :: 0 <= x < |cs| - 1 ==> IsNumber(cs[x]))
    && LastOk(cs[|cs| - 1], '_' in v)
    && ('_' in v ==> SuffixOk(Prepart(v)))
  }

  /** Whether the suffix, if there is one, has a weight. */
  predicate Weighted(v: string) {
    '_' in v ==> EndOf(Prepart(v), 0) < 8 && Weight(ENDS[EndOf(Prepart(v), 0)]).Some?
  }

  // ---------------------------------------------------------------------------
  // What the comparison depends on
  // ---------------------------------------------------------------------------

  datatype Pair = Pair(number: real, letter: int)

  /** What a version is worth: its components, then its suffix. */
  datatype Key = Key(pairs: seq<Pair>, weight: int, p2: real)

  function PairOf(c: string): Pair {
    match Plain(c)
    case None => Pair(0.0, 0)
    case Some(t) => Pair(t.number, t.p1)
  }

  function Pairs(v: string): (r: seq<Pair>)
    ensures |r| == |Components(v)|
  {
    var cs := Components(v);
    seq(|cs|, x requires 0 <= x < |cs| => PairOf(cs[x]))
  }

  function WeightOf(v: string): int {
    if '_' !in v then 0
    else
      var e := EndOf(Prepart(v), 0);
      if e < 8 && Weight(ENDS[e]).Some? then Weight(ENDS[e]).value else 0
  }

  function NumberOf(v: string): real {
    if '_' !in v then 0.0
    else
      var e := EndOf(Prepart(v), 0);
      if e == 8 || Float(Prepart(v)[|ENDS[e]|..]).None? then 0.0 else Float(Prepart(v)[|ENDS[e]|..]).value
  }

  function KeyOf(v: string): Key {
    Key(Pairs(v), WeightOf(v), NumberOf(v))
  }

  /** Missing components count as zero without a letter. */
  function At(a: seq<Pair>, x: nat): Pair {
    if x < |a| then a[x] else Pair(0.0, 0)
  }

  function Sign(d: real): int {
    if d < 0.0 then -1 else if d > 0.0 then 1 else 0
  }

  function IntSign(a: int, b: int): int {
    if a < b then -1 else if a > b then 1 else 0
  }

  function PairSign(a: Pair, b: Pair): int {
    if a.number != b.number then Sign(a.number - b.number) else IntSign(a.letter, b.letter)
  }

  /** Components `x` up to `n`, the first difference decides. */
  function PairsSign(a: seq<Pair>, b: seq<Pair>, x: nat, n: nat): int
    requires x <= n
    decreases n - x
  {
    if x == n then 0
    else if PairSign(At(a, x), At(b, x)) != 0 then PairSign(At(a, x), At(b, x))
    else PairsSign(a, b, x + 1, n)
  }

  function SuffixSign(a: Key, b: Key): int {
    if a.weight != b.weight then IntSign(a.weight, b.weight) else Sign(a.p2 - b.p2)
  }

  /** The order of keys: components, then weights, then suffix numbers. */
  function KeySign(a: Key, b: Key): int {
    var d := PairsSign(a.pairs, b.pairs, 0, Max(|a.pairs|, |b.pairs|));
    if d != 0 then d else SuffixSign(a, b)
  }

  // --- it is an order ---

  lemma {:induction false} PairsAnti(a: seq<Pair>, b: seq<Pair>, x: nat, n: nat)
    requires x <= n
    ensures PairsSign(a, b, x, n) == -PairsSign(b, a, x, n)
    decreases n - x
  {
    if x < n {
      PairsAnti(a, b, x + 1, n);
    }
  }

  /** Comparing more components than there are changes nothing. */
  lemma {:induction false} PairsMore(a: seq<Pair>, b: seq<Pair>, x: nat, n: nat, m: nat)
    requires x <= n <= m && |a| <= n && |b| <= n
    ensures PairsSign(a, b, x, n) == PairsSign(a, b, x, m)
    decreases m - x
  {
    if x < n {
      PairsMore(a, b, x + 1, n, m);
    } else if x < m {
      PairsMore(a, b, x + 1, n + 1, m);
    }
  }

  lemma {:induction false} PairsTrans(a: seq<Pair>, b: seq<Pair>, c: seq<Pair>, x: nat, n: nat)
    requires x <= n && PairsSign(a, b, x, n) <= 0 && PairsSign(b, c, x, n) <= 0
    ensures PairsSign(a, c, x, n) <= 0
    ensures PairsSign(a, c, x, n) == 0 <==> PairsSign(a, b, x, n) == 0 && PairsSign(b, c, x, n) == 0
    decreases n - x
  {
    if x < n && PairSign(At(a, x), At(b, x)) == 0 && PairSign(At(b, x), At(c, x)) == 0 {
      PairsTrans(a, b, c, x + 1, n);
    }
  }

  lemma {:induction false} KeyReflexive(a: Key)
    ensures KeySign(a, a) == 0
  {
    PairsAnti(a.pairs, a.pairs, 0, |a.pairs|);
  }

  lemma {:induction false} KeyAntisymmetric(a: Key, b: Key)
    ensures KeySign(a, b) == -KeySign(b, a)
  {
    PairsAnti(a.pairs, b.pairs, 0, Max(|a.pairs|, |b.pairs|));
  }

  lemma {:induction false} KeyTransitive(a: Key, b: Key, c: Key)
    requires KeySign(a, b) <= 0 && KeySign(b, c) <= 0
    ensures KeySign(a, c) <= 0
    ensures KeySign(a, c) == 0 <==> KeySign(a, b) == 0 && KeySign(b, c) == 0
  {
    var n := Max(|a.pairs|, Max(|b.pairs|, |c.pairs|));
    PairsMore(a.pairs, b.pairs, 0, Max(|a.pairs|, |b.pairs|), n);
    PairsMore(b.pairs, c.pairs, 0, Max(|b.pairs|, |c.pairs|), n);
    PairsMore(a.pairs, c.pairs, 0, Max(|a.pairs|, |c.pairs|), n);
    hide PairsSign;
    PairsTrans(a.pairs, b.pairs, c.pairs, 0, n);
  }

  // ---------------------------------------------------------------------------
  // The comparison follows the order
  // ---------------------------------------------------------------------------

  lemma {:induction false} SplitAlone(s: string, c: char)
    requires c !in s
    ensures Split(s, c) == [s]
    decreases |s|
  {
    if s != "" {
      SplitAlone(s[1..], c);
      assert [s[0]] + s[1..] == s;
    }
  }

  lemma {:induction false} SplitTwo(a: string, c: char, b: string)
    requires c !in a && c !in b
    ensures Split(a + [c] + b, c) == [a, b]
    decreases |a|
  {
    var s := a + [c] + b;
    if a == "" {
      assert s[1..] == b;
      SplitAlone(b, c);
    } else {
      assert s[1..] == a[1..] + [c] + b;
      SplitTwo(a[1..], c, b);
      assert [s[0]] + a[1..] == a;
    }
  }

  /** What splitting yields holds only characters of the text, and not the separator. */
  lemma {:induction false} SplitChars(s: string, c: char, x: nat)
    requires x < |Split(s, c)|
    ensures forall d :: d in Split(s, c)[x] ==> d in s && d != c
    decreases |s|
  {
    if s != "" {
      var rest := Split(s[1..], c);
      if s[0] == c {
        if x > 0 {
          SplitChars(s[1..], c, x - 1);
        }
      } else {
        SplitChars(s[1..], c, x);
      }
    }
  }

  /** A component that can be parsed: a number, behind a point or not, and maybe a letter. */
  predicate ComponentOk(c: string) {
    && '_' !in c && Plain(c).Some?
    && (Plain(c).value.p1 == 0 || 97 <= Plain(c).value.p1 <= 122) && Plain(c).value.p2 == 0.0
  }

  lemma {:induction false} FloatDigits(s: string, x: nat)
    requires IsNumber(s)
    ensures Float(Dotted(x, s)).Some? && IsDigit(Dotted(x, s)[|Dotted(x, s)| - 1])
    ensures '_' !in Dotted(x, s)
  {
    assert s[|s| - 1] in s;
    var d := Dotted(x, s);
    if d != s {
      assert d[1..] == s;
      assert !IsDigit(d[0]) && d[0] in d;
    }
  }

  lemma {:induction false} NumberComponent(s: string, x: nat)
    requires IsNumber(s)
    ensures ComponentOk(Dotted(x, s)) && Plain(Dotted(x, s)).value.p1 == 0 && Float(Dotted(x, s)).Some?
    ensures Plain(Dotted(x, s)).value.number == Float(Dotted(x, s)).value
  {
    FloatDigits(s, x);
    hide Float, Dotted;
  }

  lemma {:induction false} LetterComponent(s: string, x: nat)
    requires s != "" && Letter(s[|s| - 1]) && IsNumber(s[..|s| - 1])
    ensures ComponentOk(Dotted(x, s))
  {
    var d, n := Dotted(x, s), s[..|s| - 1];
    FloatDigits(n, x);
    assert d[..|d| - 1] == Dotted(x, n) && d[|d| - 1] == s[|s| - 1];
    hide Float, Dotted;
  }

  lemma {:induction false} ComponentsOk(v: string, x: nat)
    requires IsVersion(v) && x < |Components(v)|
    ensures ComponentOk(Components(v)[x])
    ensures x == |Components(v)| - 1 && '_' in v ==>
      Plain(Components(v)[x]).value.p1 == 0 && Float(Components(v)[x]) == Some(Plain(Components(v)[x]).value.number)
  {
    var cs := Split(Head(v), '.');
    hide Plain, Float, Dotted, ComponentOk, Split, Find;
    if IsNumber(cs[x]) {
      NumberComponent(cs[x], x);
    } else {
      LetterComponent(cs[x], x);
    }
  }

  lemma {:induction false} ParsesPlain(c: string)
    requires '_' !in c
    ensures RelParse(c) == Plain(c)
  {
    SplitAlone(c, '_');
  }

  /** A component with the suffix behind it. */
  lemma {:induction false} ParsesSuffix(c: string, prepart: string)
    requires '_' !in c && '_' !in prepart && Float(c).Some? && EndOf(prepart, 0) < 8
    ensures var e := EndOf(prepart, 0);
      var p2 := Float(prepart[|ENDS[e]|..]);
      RelParse(c + "_" + prepart)
      == if Weight(ENDS[e]).None? then None
         else Some(Triple(Float(c).value, Weight(ENDS[e]).value, if p2.Some? then p2.value else 0.0))
  {
    hide Split, Float, Weight, Plain;
    SplitTwo(c, '_', prepart);
  }

  lemma {:induction false} EndStarts(s: string, i: nat)
    requires i <= 8 && EndOf(s, i) < 8
    ensures StartsWith(s, ENDS[EndOf(s, i)])
    decreases 8 - i
  {
    if !StartsWith(s, ENDS[i]) {
      EndStarts(s, i + 1);
    }
  }

  lemma {:induction false} NamesHaveNoUnderscore(e: nat)
    requires e < 8
    ensures '_' !in ENDS[e]
  {
  }

  lemma {:induction false} PrepartPlain(v: string)
    requires IsVersion(v)
    ensures '_' !in Prepart(v) && ('_' in v <==> Prepart(v) != "")
  {
    hide Split, LastOk, Head;
    if '_' in v {
      var p := Prepart(v);
      var e := EndOf(p, 0);
      EndStarts(p, 0);
      NamesHaveNoUnderscore(e);
      assert p == ENDS[e] + p[|ENDS[e]|..];
    }
  }

  /** The parsed component `x` of a version prepared for `n` components. */
  function Expected(v: string, x: nat, n: nat): Triple {
    var p := At(Pairs(v), x);
    if x == n - 1 && '_' in v then Triple(p.number, WeightOf(v), NumberOf(v)) else Triple(p.number, p.letter, 0.0)
  }

  lemma {:induction false} ZeroParses()
    ensures Plain("0") == Some(Triple(0.0, 0, 0.0)) && Float("0") == Some(0.0)
  {
    assert Whole("") == 0;
    assert Whole("0") == 0;
  }

  /** The component before the suffix is put behind it. */
  lemma {:induction false} ExtendedParses(v: string, n: nat, x: nat)
    requires IsVersion(v) && |Components(v)| <= n && x < n
    ensures var c, p := Extended(Components(v), n)[x], At(Pairs(v), x);
      && '_' !in c && Plain(c) == Some(Triple(p.number, p.letter, 0.0))
      && (x == n - 1 && '_' in v ==> Float(c) == Some(p.number))
  {
    hide Plain, Float, Components, IsVersion;
    if x < |Components(v)| {
      ComponentsOk(v, x);
    } else {
      ZeroParses();
    }
  }

  lemma {:induction false} PreparedParses(v: string, n: nat, x: nat)
    requires IsVersion(v) && |Components(v)| <= n && x < n
    ensures |Prepared(v, n)| == n
    ensures RelParse(Prepared(v, n)[x]) == if x == n - 1 && !Weighted(v) then None else Some(Expected(v, x, n))
  {
    hide Plain, Float, Components, Split, RelParse, Pairs;
    ExtendedParses(v, n, x);
    PrepartPlain(v);
    var c := Extended(Components(v), n)[x];
    if x == n - 1 && '_' in v {
      ParsesSuffix(c, Prepart(v));
    } else {
      ParsesPlain(c);
    }
  }

  lemma {:induction false} LetterRange(v: string, x: nat)
    requires IsVersion(v)
    ensures At(Pairs(v), x).letter == 0 || 97 <= At(Pairs(v), x).letter <= 122
    ensures x >= |Components(v)| - 1 && '_' in v ==> At(Pairs(v), x).letter == 0
  {
    if x < |Components(v)| {
      hide Components, Plain, Float, IsVersion;
      ComponentsOk(v, x);
    }
  }

  /** In front of the last component the triples differ like the pairs. */
  lemma {:induction false} InnerDifference(v: string, w: string, x: nat, n: nat)
    requires x < n - 1
    ensures Sign(Difference(Expected(v, x, n), Expected(w, x, n))) == PairSign(At(Pairs(v), x), At(Pairs(w), x))
  {
    hide Pairs;
  }

  /** At the last component a suffix takes the place of the letter. */
  function LastTriple(p: Pair, suffix: bool, weight: int, p2: real): Triple {
    if suffix then Triple(p.number, weight, p2) else Triple(p.number, p.letter, 0.0)
  }

  predicate LastOne(p: Pair, suffix: bool, weight: int, p2: real) {
    && (if suffix then p.letter == 0 else p.letter == 0 || 97 <= p.letter <= 122)
    && -4 <= weight <= 0 && (!suffix ==> weight == 0 && p2 == 0.0)
  }

  /** There a letter is above every weight. */
  lemma {:induction false} LetterAboveWeight(p: Pair, sp: bool, wp: int, np: real, q: Pair, sq: bool, wq: int, nq: real)
    requires LastOne(p, sp, wp, np) && LastOne(q, sq, wq, nq)
    ensures Sign(Difference(LastTriple(p, sp, wp, np), LastTriple(q, sq, wq, nq)))
         == if PairSign(p, q) != 0 then PairSign(p, q) else if wp != wq then IntSign(wp, wq) else Sign(np - nq)
  {
  }

  /** At the last component the suffixes come in. */
  lemma {:induction false} LastDifference(v: string, w: string, n: nat)
    requires IsVersion(v) && IsVersion(w) && |Components(v)| <= n && |Components(w)| <= n && n > 0
    ensures var d := PairSign(At(Pairs(v), n - 1), At(Pairs(w), n - 1));
      Sign(Difference(Expected(v, n - 1, n), Expected(w, n - 1, n))) == if d != 0 then d else SuffixSign(KeyOf(v), KeyOf(w))
  {
    hide Pairs, IsVersion, Components, At, WeightOf, NumberOf, Difference, PairSign, Sign, IntSign;
    LetterRange(v, n - 1);
    LetterRange(w, n - 1);
    WeightRange(v);
    WeightRange(w);
    LetterAboveWeight(At(Pairs(v), n - 1), '_' in v, WeightOf(v), NumberOf(v), At(Pairs(w), n - 1), '_' in w, WeightOf(w), NumberOf(w));
  }

  lemma {:induction false} WeightRange(v: string)
    ensures -4 <= WeightOf(v) <= 0
    ensures '_' !in v ==> WeightOf(v) == 0 && NumberOf(v) == 0.0
  {
  }

  /** Up to the last component the first differing pair decides. */
  lemma {:induction false} InnerDifferences(v: string, w: string, n: nat, x: nat)
    requires IsVersion(v) && IsVersion(w) && |Components(v)| <= n && |Components(w)| <= n && x < n
    ensures |Prepared(v, n)| == |Prepared(w, n)| == n
    ensures var r, d := FirstDifference(Prepared(v, n), Prepared(w, n), x), PairsSign(Pairs(v), Pairs(w), x, n - 1);
      if d != 0 then r.Some? && Sign(r.value) == d else r == FirstDifference(Prepared(v, n), Prepared(w, n), n - 1)
    decreases n - x
  {
    hide Components, IsVersion, Weighted, Prepared, Pairs, RelParse, Difference, Expected, PairSign;
    PreparedParses(v, n, x);
    PreparedParses(w, n, x);
    if x < n - 1 {
      InnerDifference(v, w, x, n);
      InnerDifferences(v, w, n, x + 1);
    }
  }

  lemma {:induction false} PairsSplit(a: seq<Pair>, b: seq<Pair>, x: nat, n: nat)
    requires x < n
    ensures PairsSign(a, b, x, n)
         == if PairsSign(a, b, x, n - 1) != 0 then PairsSign(a, b, x, n - 1) else PairSign(At(a, n - 1), At(b, n - 1))
    decreases n - x
  {
    if x < n - 1 {
      PairsSplit(a, b, x + 1, n);
    } else {
      assert PairsSign(a, b, n, n) == 0;
    }
  }

  /** The number of components that are compared. */
  function Width(v: string, w: string): (n: nat)
    ensures n > 0
  {
    Max(|Components(v)|, |Components(w)|)
  }

  lemma {:induction false} ComparedParts(v: string, w: string)
    requires IsVersion(v) && IsVersion(w) && v != w
    ensures var r, n := Compared(v, w), Width(v, w);
      var d := PairsSign(Pairs(v), Pairs(w), 0, n - 1);
      if d != 0 then r.Some? && Sign(r.value) == d
      else if !Weighted(v) || !Weighted(w) then r.None?
      else r.Some? && Sign(r.value) == KeySign(KeyOf(v), KeyOf(w))
    ensures var d := PairsSign(Pairs(v), Pairs(w), 0, Width(v, w) - 1);
      d != 0 ==> d == KeySign(KeyOf(v), KeyOf(w))
  {
    hide Components, IsVersion, Weighted, Prepared, Pairs, RelParse, Difference, Expected, PairSign, SuffixSign, PairsSign;
    var n := Width(v, w);
    InnerDifferences(v, w, n, 0);
    PreparedParses(v, n, n - 1);
    PreparedParses(w, n, n - 1);
    LastDifference(v, w, n);
    PairsSplit(Pairs(v), Pairs(w), 0, n);
    LastStep(v, w, n);
  }

  lemma {:induction false} LastStep(v: string, w: string, n: nat)
    requires n > 0 && |Prepared(v, n)| == |Prepared(w, n)| == n
    ensures var c, d := RelParse(Prepared(v, n)[n - 1]), RelParse(Prepared(w, n)[n - 1]);
      var r := FirstDifference(Prepared(v, n), Prepared(w, n), n - 1);
      if c.None? || d.None? then r.None? else r.Some? && r.value == Difference(c.value, d.value)
  {
    hide Prepared, RelParse, Difference;
  }

  /** Comparing two versions raises an exception exactly if one of them has a suffix without
      a weight and nothing in front of the last component decides. */
  lemma {:induction false} RaisesIff(v: string, w: string)
    requires IsVersion(v) && IsVersion(w)
    ensures Compared(v, w).None? <==>
      v != w && (!Weighted(v) || !Weighted(w)) && PairsSign(Pairs(v), Pairs(w), 0, Width(v, w) - 1) == 0
  {
    if v != w {
      ComparedParts(v, w);
    }
  }

  /** Wherever it gives a result, its sign is the order of the versions' keys. */
  lemma {:induction false} SignIsKeyOrder(v: string, w: string)
    requires IsVersion(v) && IsVersion(w) && Compared(v, w).Some?
    ensures Sign(Compared(v, w).value) == KeySign(KeyOf(v), KeyOf(w))
  {
    if v == w {
      KeyReflexive(KeyOf(v));
    } else {
      ComparedParts(v, w);
    }
  }

  // --- so the comparison is a total preorder ---

  lemma {:induction false} Total(v: string, w: string)
    requires IsVersion(v) && IsVersion(w) && Weighted(v) && Weighted(w)
    ensures Compared(v, w).Some?
  {
    RaisesIff(v, w);
  }

  /** Either both orders give a result or neither, and the results have opposite signs. */
  lemma {:induction false} Antisymmetric(v: string, w: string)
    requires IsVersion(v) && IsVersion(w)
    ensures Compared(v, w).Some? <==> Compared(w, v).Some?
    ensures Compared(v, w).Some? ==> Sign(Compared(v, w).value) == -Sign(Compared(w, v).value)
  {
    hide Compared, KeySign, KeyOf, IsVersion, PairsSign, Weighted;
    RaisesIff(v, w);
    RaisesIff(w, v);
    PairsAnti(Pairs(v), Pairs(w), 0, Width(v, w) - 1);
    KeyAntisymmetric(KeyOf(v), KeyOf(w));
    if Compared(v, w).Some? {
      SignIsKeyOrder(v, w);
      SignIsKeyOrder(w, v);
    }
  }

  lemma {:induction false} Transitive(u: string, v: string, w: string)
    requires IsVersion(u) && IsVersion(v) && IsVersion(w)
    requires Compared(u, v).Some? && Compared(v, w).Some? && Compared(u, w).Some?
    requires Sign(Compared(u, v).value) <= 0 && Sign(Compared(v, w).value) <= 0
    ensures Sign(Compared(u, w).value) <= 0
    ensures Sign(Compared(u, w).value) == 0 <==> Sign(Compared(u, v).value) == 0 && Sign(Compared(v, w).value) == 0
  {
    hide Compared, KeySign, KeyOf, IsVersion;
    SignIsKeyOrder(u, v);
    SignIsKeyOrder(v, w);
    SignIsKeyOrder(u, w);
    KeyTransitive(KeyOf(u), KeyOf(v), KeyOf(w));
  }

  // ---------------------------------------------------------------------------
  // Packages
  // ---------------------------------------------------------------------------

  /** A split package name: name, version, and a revision like `r7`. */
  datatype Package = Package(name: string, version: string, revision: string)

  predicate PackageOk(p: Package) {
    IsVersion(p.version) && p.revision != "" && IsNumber(p.revision[1..])
  }

  function Revision(p: Package): nat
    requires PackageOk(p)
  {
    Whole(p.revision[1..])
  }

  /** `pkgcmp`: versions first, then revisions. */
  function PackagesCompared(p: Package, q: Package): Option<int>
    requires PackageOk(p) && PackageOk(q)
  {
    match Compared(p.version, q.version)
    case None => None
    case Some(d) => Some(if d > 0.0 then 1 else if d < 0.0 then -1 else IntSign(Revision(p), Revision(q)))
  }

  /** Packages are ordered by version and then by revision, whatever their names are. */
  lemma {:induction false} PackagesTransitive(p: Package, q: Package, r: Package)
    requires PackageOk(p) && PackageOk(q) && PackageOk(r)
    requires PackagesCompared(p, q).Some? && PackagesCompared(q, r).Some? && PackagesCompared(p, r).Some?
    requires PackagesCompared(p, q).value <= 0 && PackagesCompared(q, r).value <= 0
    ensures PackagesCompared(p, r).value <= 0
    ensures PackagesCompared(p, r).value == 0 <==> PackagesCompared(p, q).value == 0 && PackagesCompared(q, r).value == 0
  {
    hide Compared, IsVersion, Whole;
    Transitive(p.version, q.version, r.version);
  }

  lemma {:induction false} PackagesAntisymmetric(p: Package, q: Package)
    requires PackageOk(p) && PackageOk(q)
    ensures PackagesCompared(p, q).Some? <==> PackagesCompared(q, p).Some?
    ensures PackagesCompared(p, q).Some? ==> PackagesCompared(p, q).value == -PackagesCompared(q, p).value
  {
    hide Compared, IsVersion, Whole;
    Antisymmetric(p.version, q.version);
  }

  // ---------------------------------------------------------------------------
  // The functions with their memory
  // ---------------------------------------------------------------------------

  function MemoKey(v: string, w: string): string {
    v + " " + w
  }

  lemma {:induction false} SplitCovers(s: string, c: char, d: char) returns (x: nat)
    requires d in s && d != c
    ensures x < |Split(s, c)| && d in Split(s, c)[x]
    decreases |s|
  {
    var rest := Split(s[1..], c);
    if s[0] == d {
      x := 0;
      assert ([s[0]] + rest[0])[0] == d;
    } else {
      assert d in s[1..];
      var y := SplitCovers(s[1..], c, d);
      x := if s[0] == c then y + 1 else y;
    }
  }

  lemma {:induction false} ComponentNoSpace(c: string, suffix: bool)
    requires LastOk(c, suffix)
    ensures ' ' !in c
  {
    if !IsNumber(c) {
      assert c == c[..|c| - 1] + [c[|c| - 1]];
    }
  }

  lemma {:induction false} HeadNoSpace(v: string)
    requires IsVersion(v)
    ensures ' ' !in Head(v)
  {
    hide Split, Find, SuffixOk, LastOk;
    if ' ' in Head(v) {
      var x := SplitCovers(Head(v), '.', ' ');
      var cs := Split(Head(v), '.');
      if x == |cs| - 1 {
        ComponentNoSpace(cs[x], '_' in v);
      }
    }
  }

  lemma {:induction false} NoSpace(v: string)
    requires IsVersion(v)
    ensures ' ' !in v
  {
    hide Split, LastOk, SuffixOk, Find;
    HeadNoSpace(v);
    var i := Find(v, '_');
    if i < |v| {
      assert '_' in v;
      SuffixNoSpace(Prepart(v));
      assert v == Head(v) + "_" + Prepart(v);
    } else {
      assert v == Head(v);
    }
  }

  lemma {:induction false} SuffixNoSpace(s: string)
    requires SuffixOk(s)
    ensures ' ' !in s
  {
    var e := EndOf(s, 0);
    EndStarts(s, 0);
    hide EndOf;
    assert s == ENDS[e] + s[|ENDS[e]|..];
    assert ' ' !in ENDS[e];
  }

  /** Different pairs of versions have different keys. */
  lemma {:induction false} KeysDiffer(v: string, w: string, v': string, w': string)
    requires ' ' !in v && ' ' !in v' && MemoKey(v, w) == MemoKey(v', w')
    ensures v == v' && w == w'
  {
    FindSpace(v, w);
    FindSpace(v', w');
  }

  lemma {:induction false} FindSpace(v: string, w: string)
    requires ' ' !in v
    ensures Find(MemoKey(v, w), ' ') == |v|
    ensures MemoKey(v, w)[..|v|] == v && MemoKey(v, w)[|v| + 1..] == w
    decreases |v|
  {
    if v != "" {
      assert MemoKey(v, w)[1..] == MemoKey(v[1..], w);
      FindSpace(v[1..], w);
    }
  }

  /** The memory holds results of comparisons. */
  ghost predicate Remembers(cache: map<string, real>) {
    forall v, w :: IsVersion(v) && IsVersion(w) && MemoKey(v, w) in cache ==> Compared(v, w) == Some(cache[MemoKey(v, w)])
  }

  lemma {:induction false} RemembersMore(cache: map<string, real>, v: string, w: string, d: real)
    requires Remembers(cache) && IsVersion(v) && IsVersion(w) && Compared(v, w) == Some(d)
    ensures Remembers(cache[MemoKey(v, w) := d])
  {
    hide IsVersion, Compared, MemoKey;
    NoSpace(v);
    forall v', w' | IsVersion(v') && IsVersion(w') && MemoKey(v', w') in cache[MemoKey(v, w) := d]
      ensures Compared(v', w') == Some(cache[MemoKey(v, w) := d][MemoKey(v', w')])
    {
      if MemoKey(v', w') == MemoKey(v, w) {
        NoSpace(v');
        KeysDiffer(v, w, v', w');
      }
    }
  }

  /** Puts the point back in front of components that start with a zero. */
  method AddPoints(cs: seq<string>) returns (r: seq<string>)
    requires cs != [] && forall x :: 0 <= x < |cs| ==> cs[x] != ""
    ensures |r| == |cs| && forall x :: 0 <= x < |cs| ==> r[x] == Dotted(x, cs[x])
  {
    r := cs;
    for x := 1 to |cs|
      invariant |r| == |cs|
      invariant forall y :: 0 <= y < |cs| ==> r[y] == if y < x then Dotted(y, cs[y]) else cs[y]
    {
      if r[x][0] == '0' {
        r := r[x := "." + r[x]];
      }
    }
  }

  lemma {:induction false} NoneEmpty(v: string)
    requires IsVersion(v)
    ensures forall x :: 0 <= x < |Split(Head(v), '.')| ==> Split(Head(v), '.')[x] != ""
  {
    hide Split, Find, SuffixOk;
  }

  /** Components of equal number, with the suffixes put back. */
  method Expand(val1: string, val2: string) returns (list1: seq<string>, list2: seq<string>)
    requires IsVersion(val1) && IsVersion(val2)
    ensures var n := Max(|Components(val1)|, |Components(val2)|);
      list1 == Prepared(val1, n) && list2 == Prepared(val2, n) && |list1| == |list2|
  {
    hide IsVersion, Split, Find;
    NoneEmpty(val1);
    NoneEmpty(val2);
    list1 := AddPoints(Split(Head(val1), '.'));
    list2 := AddPoints(Split(Head(val2), '.'));
    assert list1 == Components(val1) && list2 == Components(val2);
    var n := Max(|list1|, |list2|);
    list1 := Suffixed(Extended(list1, n), Prepart(val1));
    list2 := Suffixed(Extended(list2, n), Prepart(val2));
  }

  method CompareLists(list1: seq<string>, list2: seq<string>) returns (ret: Option<real>)
    requires |list1| == |list2|
    ensures ret == FirstDifference(list1, list2, 0)
  {
    hide RelParse, Difference;
    for x := 0 to |list1|
      invariant FirstDifference(list1, list2, 0) == FirstDifference(list1, list2, x)
    {
      var cmp1, cmp2 := RelParse(list1[x]), RelParse(list2[x]);
      if cmp1.None? || cmp2.None? {
        return None;
      }
      var d := Difference(cmp1.value, cmp2.value);
      if d != 0.0 {
        return Some(d);
      }
    }
    return Some(0.0);
  }

  class Comparer {
    var cache: map<string, real>

    constructor ()
      ensures cache == map[] && Remembers(cache)
    {
      cache := map[];
    }

    /** The memory changes no result. */
    method Vercmp(val1: string, val2: string) returns (ret: Option<real>)
      requires IsVersion(val1) && IsVersion(val2) && Remembers(cache)
      modifies this
      ensures ret == Compared(val1, val2) && Remembers(cache)
    {
      hide IsVersion, Remembers, Prepared, FirstDifference, MemoKey;
      if val1 == val2 {
        return Some(0.0);
      }
      if MemoKey(val1, val2) in cache {
        Recalled(val1, val2);
        return Some(cache[MemoKey(val1, val2)]);
      }
      var list1, list2 := Expand(val1, val2);
      ret := CompareLists(list1, list2);
      if ret.Some? {
        RemembersMore(cache, val1, val2, ret.value);
        cache := cache[MemoKey(val1, val2) := ret.value];
      }
    }

    lemma {:induction false} Recalled(v: string, w: string)
      requires IsVersion(v) && IsVersion(w) && Remembers(cache) && MemoKey(v, w) in cache
      ensures Compared(v, w) == Some(cache[MemoKey(v, w)])
    {
    }

    method Pkgcmp(pkg1: Package, pkg2: Package) returns (ret: Option<int>)
      requires PackageOk(pkg1) && PackageOk(pkg2) && Remembers(cache)
      modifies this
      ensures ret == PackagesCompared(pkg1, pkg2) && Remembers(cache)
    {
      hide IsVersion, Remembers, Compared;
      var d := Vercmp(pkg1.version, pkg2.version);
      if d.None? {
        return None;
      }
      if d.value > 0.0 {
        return Some(1);
      }
      if d.value < 0.0 {
        return Some(-1);
      }
      var r1, r2 := Revision(pkg1), Revision(pkg2);
      if r1 > r2 {
        return Some(1);
      }
      if r2 > r1 {
        return Some(-1);
      }
      return Some(0);
    }
  }
}
