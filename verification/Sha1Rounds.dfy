/** Two identities of 32-bit words. */
module Sha1Bits {

  lemma Choose(w: bv32, x: bv32, y: bv32)
    ensures (w & (x ^ y)) ^ y == (w & x) ^ (!w & y)
  {
  }

  lemma Majority(w: bv32, x: bv32, y: bv32)
    ensures ((w | x) & y) | (w & x) == (w & x) ^ (w & y) ^ (x & y)
  {
  }
}

/** The SHA-1 block transform: 80 rounds over five rotating variables, with the message
    schedule kept in a circular buffer of 16 words, against the 80-word schedule and the
    80-step loop of section 6.1.2 of FIPS 180-4. */
module Sha1Rounds {
  import Sha1Bits

  type Word = bv32

  // ---------------------------------------------------------------------------
  // FIPS 180-4
  // ---------------------------------------------------------------------------

  function Rotl1(x: Word): Word { (x << 1) | (x >> 31) }
  function Rotl5(x: Word): Word { (x << 5) | (x >> 27) }
  function Rotl30(x: Word): Word { (x << 30) | (x >> 2) }

  // section 4.1.1
  function Ch(x: Word, y: Word, z: Word): Word { (x & y) ^ (!x & z) }
  function Parity(x: Word, y: Word, z: Word): Word { x ^ y ^ z }
  function Maj(x: Word, y: Word, z: Word): Word { (x & y) ^ (x & z) ^ (y & z) }

  function F(t: nat, x: Word, y: Word, z: Word): Word {
    if t < 20 then Ch(x, y, z)
    else if t < 40 then Parity(x, y, z)
    else if t < 60 then Maj(x, y, z)
    else Parity(x, y, z)
  }

  // section 4.2.1
  function K(t: nat): Word {
    if t < 20 then 0x5A827999
    else if t < 40 then 0x6ED9EBA1
    else if t < 60 then 0x8F1BBCDC
    else 0xCA62C1D6
  }

  function Xor4(p: Word, q: Word, r: Word, s: Word): Word { p ^ q ^ r ^ s }

  /** The message schedule of section 6.1.2, step 1. */
  function W(m: seq<Word>, t: nat): Word
    requires |m| == 16
    decreases t
  {
    if t < 16 then m[t]
    else Rotl1(Xor4(W(m, t - 3), W(m, t - 8), W(m, t - 14), W(m, t - 16)))
  }

  datatype Vars = Vars(a: Word, b: Word, c: Word, d: Word, e: Word)

  function Sum5(r: Word, f: Word, e: Word, k: Word, w: Word): Word {
    r + f + e + k + w
  }

  function Plus(x: Word, y: Word): Word { x + y }

  /** One pass of step 3. */
  function Step(v: Vars, t: nat, w: Word): Vars {
    Vars(Sum5(Rotl5(v.a), F(t, v.b, v.c, v.d), v.e, K(t), w), v.a, Rotl30(v.b), v.c, v.d)
  }

  /** The working variables before pass `t`. */
  function Rounds(m: seq<Word>, h: Vars, t: nat): Vars
    requires |m| == 16
    decreases t
  {
    if t == 0 then h else Step(Rounds(m, h, t - 1), t - 1, W(m, t - 1))
  }

  const ROUNDS: nat := 80

  /** Steps 2 to 4: one block of message words into the hash value. */
  function Compress(h: seq<Word>, m: seq<Word>): (r: seq<Word>)
    requires |h| == 5 && |m| == 16
    ensures |r| == 5
  {
    var v := Rounds(m, Vars(h[0], h[1], h[2], h[3], h[4]), ROUNDS);
    [Plus(h[0], v.a), Plus(h[1], v.b), Plus(h[2], v.c), Plus(h[3], v.d), Plus(h[4], v.e)]
  }

  // ---------------------------------------------------------------------------
  // The program's forms of the round functions
  // ---------------------------------------------------------------------------

  function Choose(w: Word, x: Word, y: Word): Word { (w & (x ^ y)) ^ y }
  function Majority(w: Word, x: Word, y: Word): Word { ((w | x) & y) | (w & x) }
  function AddTo(z: Word, f: Word, b: Word, k: Word, r: Word): Word { z + (f + b + k + r) }

  lemma ChForm(w: Word, x: Word, y: Word)
    ensures Choose(w, x, y) == Ch(w, x, y)
  {
    Sha1Bits.Choose(w, x, y);
  }

  lemma MajForm(w: Word, x: Word, y: Word)
    ensures Majority(w, x, y) == Maj(w, x, y)
  {
    Sha1Bits.Majority(w, x, y);
  }

  lemma SumForm(z: Word, f: Word, b: Word, k: Word, r: Word)
    ensures AddTo(z, f, b, k, r) == Sum5(r, f, z, k, b)
  {
  }

  // ---------------------------------------------------------------------------
  // The circular schedule
  // ---------------------------------------------------------------------------

  /** The block holds the last 16 schedule words: those before round `t`, or before round
      16 the message itself. */
  ghost predicate Window(m: seq<Word>, l: seq<Word>, t: nat) {
    |m| == |l| == 16
    && forall j :: (if t < 16 then 0 else t - 16) <= j < (if t < 16 then 16 else t) ==> l[j % 16] == W(m, j)
  }

  /** Before round `t`: the variables under their current names, and the block. */
  ghost predicate Before(m: seq<Word>, h: Vars, t: nat, v: Vars, l: seq<Word>) {
    Window(m, l, t) && v == Rounds(m, h, t)
  }

  /** `blk(i)`: the new schedule word, which replaces the oldest one in place. */
  method Blk(block: array<Word>, i: nat, ghost m: seq<Word>) returns (r: Word)
    requires block.Length == 16 && i >= 16 && Window(m, block[..], i)
    modifies block
    ensures r == W(m, i) && Window(m, block[..], i + 1)
  {
    hide Rotl1, Xor4;
    assert (i + 13) % 16 == (i - 3) % 16 && (i + 8) % 16 == (i - 8) % 16;
    assert (i + 2) % 16 == (i - 14) % 16 && i % 16 == (i - 16) % 16;
    r := Rotl1(Xor4(block[(i + 13) % 16], block[(i + 8) % 16], block[(i + 2) % 16], block[i % 16]));
    block[i % 16] := r;
    forall j | i - 15 <= j < i + 1
      ensures block[j % 16] == W(m, j)
    {
      assert j < i ==> j % 16 != i % 16;
    }
  }

  /** The first sixteen operations take the message words themselves. */
  method R0(v: Word, w: Word, x: Word, y: Word, z: Word, i: nat, block: array<Word>, ghost m: seq<Word>, ghost h: Vars)
      returns (w': Word, z': Word)
    requires block.Length == 16 && i < 16 && Before(m, h, i, Vars(v, w, x, y, z), block[..])
    ensures Before(m, h, i + 1, Vars(z', v, w', x, y), block[..])
  {
    hide Rotl1, Rotl5, Rotl30, Choose, Majority, Ch, Parity, Maj, AddTo, Sum5;
    assert block[..][i % 16] == W(m, i);
    z' := AddTo(z, Choose(w, x, y), block[i], 0x5A827999, Rotl5(v));
    w' := Rotl30(w);
    ChForm(w, x, y);
    SumForm(z, Ch(w, x, y), block[i], 0x5A827999, Rotl5(v));
  }

  method R1(v: Word, w: Word, x: Word, y: Word, z: Word, i: nat, block: array<Word>, ghost m: seq<Word>, ghost h: Vars)
      returns (w': Word, z': Word)
    requires block.Length == 16 && 16 <= i < 20 && Before(m, h, i, Vars(v, w, x, y, z), block[..])
    modifies block
    ensures Before(m, h, i + 1, Vars(z', v, w', x, y), block[..])
  {
    hide Rotl1, Rotl5, Rotl30, Choose, Majority, Ch, Parity, Maj, AddTo, Sum5;
    var b := Blk(block, i, m);
    z' := AddTo(z, Choose(w, x, y), b, 0x5A827999, Rotl5(v));
    w' := Rotl30(w);
    ChForm(w, x, y);
    SumForm(z, Ch(w, x, y), b, 0x5A827999, Rotl5(v));
  }

  method R2(v: Word, w: Word, x: Word, y: Word, z: Word, i: nat, block: array<Word>, ghost m: seq<Word>, ghost h: Vars)
      returns (w': Word, z': Word)
    requires block.Length == 16 && 20 <= i < 40 && Before(m, h, i, Vars(v, w, x, y, z), block[..])
    modifies block
    ensures Before(m, h, i + 1, Vars(z', v, w', x, y), block[..])
  {
    hide Rotl1, Rotl5, Rotl30, Choose, Majority, Ch, Parity, Maj, AddTo, Sum5;
    var b := Blk(block, i, m);
    z' := AddTo(z, Parity(w, x, y), b, 0x6ED9EBA1, Rotl5(v));
    w' := Rotl30(w);
    SumForm(z, Parity(w, x, y), b, 0x6ED9EBA1, Rotl5(v));
  }

  method R3(v: Word, w: Word, x: Word, y: Word, z: Word, i: nat, block: array<Word>, ghost m: seq<Word>, ghost h: Vars)
      returns (w': Word, z': Word)
    requires block.Length == 16 && 40 <= i < 60 && Before(m, h, i, Vars(v, w, x, y, z), block[..])
    modifies block
    ensures Before(m, h, i + 1, Vars(z', v, w', x, y), block[..])
  {
    hide Rotl1, Rotl5, Rotl30, Choose, Majority, Ch, Parity, Maj, AddTo, Sum5;
    var b := Blk(block, i, m);
    z' := AddTo(z, Majority(w, x, y), b, 0x8F1BBCDC, Rotl5(v));
    w' := Rotl30(w);
    MajForm(w, x, y);
    SumForm(z, Maj(w, x, y), b, 0x8F1BBCDC, Rotl5(v));
  }

  method R4(v: Word, w: Word, x: Word, y: Word, z: Word, i: nat, block: array<Word>, ghost m: seq<Word>, ghost h: Vars)
      returns (w': Word, z': Word)
    requires block.Length == 16 && 60 <= i < 80 && Before(m, h, i, Vars(v, w, x, y, z), block[..])
    modifies block
    ensures Before(m, h, i + 1, Vars(z', v, w', x, y), block[..])
  {
    hide Rotl1, Rotl5, Rotl30, Choose, Majority, Ch, Parity, Maj, AddTo, Sum5;
    var b := Blk(block, i, m);
    z' := AddTo(z, Parity(w, x, y), b, 0xCA62C1D6, Rotl5(v));
    w' := Rotl30(w);
    SumForm(z, Parity(w, x, y), b, 0xCA62C1D6, Rotl5(v));
  }

  /** The first twenty operations: the message words, then the first four schedule words. */
  method Operations0(v: Vars, block: array<Word>, ghost m: seq<Word>, ghost h: Vars) returns (r: Vars)
    requires block.Length == 16 && Before(m, h, 0, v, block[..])
    modifies block
    ensures Before(m, h, 20, r, block[..])
  {
    hide Before, Rounds, W, Window;
    var a, b, c, d, e := v.a, v.b, v.c, v.d, v.e;
    b, e := R0(a, b, c, d, e, 0, block, m, h);
    a, d := R0(e, a, b, c, d, 1, block, m, h);
    e, c := R0(d, e, a, b, c, 2, block, m, h);
    d, b := R0(c, d, e, a, b, 3, block, m, h);
    c, a := R0(b, c, d, e, a, 4, block, m, h);
    b, e := R0(a, b, c, d, e, 5, block, m, h);
    a, d := R0(e, a, b, c, d, 6, block, m, h);
    e, c := R0(d, e, a, b, c, 7, block, m, h);
    d, b := R0(c, d, e, a, b, 8, block, m, h);
    c, a := R0(b, c, d, e, a, 9, block, m, h);
    b, e := R0(a, b, c, d, e, 10, block, m, h);
    a, d := R0(e, a, b, c, d, 11, block, m, h);
    e, c := R0(d, e, a, b, c, 12, block, m, h);
    d, b := R0(c, d, e, a, b, 13, block, m, h);
    c, a := R0(b, c, d, e, a, 14, block, m, h);
    b, e := R0(a, b, c, d, e, 15, block, m, h);
    a, d := R1(e, a, b, c, d, 16, block, m, h);
    e, c := R1(d, e, a, b, c, 17, block, m, h);
    d, b := R1(c, d, e, a, b, 18, block, m, h);
    c, a := R1(b, c, d, e, a, 19, block, m, h);
    r := Vars(a, b, c, d, e);
  }

  /** The second twenty operations. */
  method Operations20(v: Vars, block: array<Word>, ghost m: seq<Word>, ghost h: Vars) returns (r: Vars)
    requires block.Length == 16 && Before(m, h, 20, v, block[..])
    modifies block
    ensures Before(m, h, 40, r, block[..])
  {
    hide Before, Rounds, W, Window;
    var a, b, c, d, e := v.a, v.b, v.c, v.d, v.e;
    b, e := R2(a, b, c, d, e, 20, block, m, h);
    a, d := R2(e, a, b, c, d, 21, block, m, h);
    e, c := R2(d, e, a, b, c, 22, block, m, h);
    d, b := R2(c, d, e, a, b, 23, block, m, h);
    c, a := R2(b, c, d, e, a, 24, block, m, h);
    b, e := R2(a, b, c, d, e, 25, block, m, h);
    a, d := R2(e, a, b, c, d, 26, block, m, h);
    e, c := R2(d, e, a, b, c, 27, block, m, h);
    d, b := R2(c, d, e, a, b, 28, block, m, h);
    c, a := R2(b, c, d, e, a, 29, block, m, h);
    b, e := R2(a, b, c, d, e, 30, block, m, h);
    a, d := R2(e, a, b, c, d, 31, block, m, h);
    e, c := R2(d, e, a, b, c, 32, block, m, h);
    d, b := R2(c, d, e, a, b, 33, block, m, h);
    c, a := R2(b, c, d, e, a, 34, block, m, h);
    b, e := R2(a, b, c, d, e, 35, block, m, h);
    a, d := R2(e, a, b, c, d, 36, block, m, h);
    e, c := R2(d, e, a, b, c, 37, block, m, h);
    d, b := R2(c, d, e, a, b, 38, block, m, h);
    c, a := R2(b, c, d, e, a, 39, block, m, h);
    r := Vars(a, b, c, d, e);
  }

  /** The third twenty operations. */
  method Operations40(v: Vars, block: array<Word>, ghost m: seq<Word>, ghost h: Vars) returns (r: Vars)
    requires block.Length == 16 && Before(m, h, 40, v, block[..])
    modifies block
    ensures Before(m, h, 60, r, block[..])
  {
    hide Before, Rounds, W, Window;
    var a, b, c, d, e := v.a, v.b, v.c, v.d, v.e;
    b, e := R3(a, b, c, d, e, 40, block, m, h);
    a, d := R3(e, a, b, c, d, 41, block, m, h);
    e, c := R3(d, e, a, b, c, 42, block, m, h);
    d, b := R3(c, d, e, a, b, 43, block, m, h);
    c, a := R3(b, c, d, e, a, 44, block, m, h);
    b, e := R3(a, b, c, d, e, 45, block, m, h);
    a, d := R3(e, a, b, c, d, 46, block, m, h);
    e, c := R3(d, e, a, b, c, 47, block, m, h);
    d, b := R3(c, d, e, a, b, 48, block, m, h);
    c, a := R3(b, c, d, e, a, 49, block, m, h);
    b, e := R3(a, b, c, d, e, 50, block, m, h);
    a, d := R3(e, a, b, c, d, 51, block, m, h);
    e, c := R3(d, e, a, b, c, 52, block, m, h);
    d, b := R3(c, d, e, a, b, 53, block, m, h);
    c, a := R3(b, c, d, e, a, 54, block, m, h);
    b, e := R3(a, b, c, d, e, 55, block, m, h);
    a, d := R3(e, a, b, c, d, 56, block, m, h);
    e, c := R3(d, e, a, b, c, 57, block, m, h);
    d, b := R3(c, d, e, a, b, 58, block, m, h);
    c, a := R3(b, c, d, e, a, 59, block, m, h);
    r := Vars(a, b, c, d, e);
  }

  /** The last twenty operations. */
  method Operations60(v: Vars, block: array<Word>, ghost m: seq<Word>, ghost h: Vars) returns (r: Vars)
    requires block.Length == 16 && Before(m, h, 60, v, block[..])
    modifies block
    ensures Before(m, h, 80, r, block[..])
  {
    hide Before, Rounds, W, Window;
    var a, b, c, d, e := v.a, v.b, v.c, v.d, v.e;
    b, e := R4(a, b, c, d, e, 60, block, m, h);
    a, d := R4(e, a, b, c, d, 61, block, m, h);
    e, c := R4(d, e, a, b, c, 62, block, m, h);
    d, b := R4(c, d, e, a, b, 63, block, m, h);
    c, a := R4(b, c, d, e, a, 64, block, m, h);
    b, e := R4(a, b, c, d, e, 65, block, m, h);
    a, d := R4(e, a, b, c, d, 66, block, m, h);
    e, c := R4(d, e, a, b, c, 67, block, m, h);
    d, b := R4(c, d, e, a, b, 68, block, m, h);
    c, a := R4(b, c, d, e, a, 69, block, m, h);
    b, e := R4(a, b, c, d, e, 70, block, m, h);
    a, d := R4(e, a, b, c, d, 71, block, m, h);
    e, c := R4(d, e, a, b, c, 72, block, m, h);
    d, b := R4(c, d, e, a, b, 73, block, m, h);
    c, a := R4(b, c, d, e, a, 74, block, m, h);
    b, e := R4(a, b, c, d, e, 75, block, m, h);
    a, d := R4(e, a, b, c, d, 76, block, m, h);
    e, c := R4(d, e, a, b, c, 77, block, m, h);
    d, b := R4(c, d, e, a, b, 78, block, m, h);
    c, a := R4(b, c, d, e, a, 79, block, m, h);
    r := Vars(a, b, c, d, e);
  }

  /** The block transform of the program is the compression of the standard, for every
      hash value and every sixteen loaded words. */
  method Transform(state: array<Word>, m: seq<Word>)
    requires state.Length == 5 && |m| == 16
    modifies state
    ensures state[..] == Compress(old(state[..]), m)
  {
    hide Before, Rounds, W, Plus;
    var block := new Word[16](i requires 0 <= i < 16 => m[i]);
    assert block[..] == m;
    ghost var h := Vars(state[0], state[1], state[2], state[3], state[4]);
    var v := Vars(state[0], state[1], state[2], state[3], state[4]);
    AtStart(m, h);
    v := Operations0(v, block, m, h);
    v := Operations20(v, block, m, h);
    v := Operations40(v, block, m, h);
    v := Operations60(v, block, m, h);
    AtEnd(m, h, v, block[..]);
    state[0] := Plus(state[0], v.a);
    state[1] := Plus(state[1], v.b);
    state[2] := Plus(state[2], v.c);
    state[3] := Plus(state[3], v.d);
    state[4] := Plus(state[4], v.e);
  }

  lemma AtStart(m: seq<Word>, h: Vars)
    requires |m| == 16
    ensures Before(m, h, 0, h, m)
  {
  }

  lemma AtEnd(m: seq<Word>, h: Vars, v: Vars, l: seq<Word>)
    requires Before(m, h, ROUNDS, v, l)
    ensures v == Rounds(m, h, ROUNDS)
  {
  }
}
