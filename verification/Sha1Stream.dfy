/** Streaming: messages arrive in pieces of any length, are buffered to blocks of 64
    bytes, counted in bits in two 32-bit words, and padded at the end. The block transform
    is a parameter here, so this holds for either byte order of the word load. */
module Sha1Stream {
  import opened Common

  /** What the streaming layer takes from the hash function: the initial value, the
      transform of a value with one 64-byte block, and the bytes of a word. */
  datatype Algorithm<!W> = Algorithm(
    initial: seq<W>, transform: (seq<W>, seq<byte>) -> seq<W>, byteAt: (W, nat) -> byte)

  ghost predicate Sized<W(!new)>(alg: Algorithm<W>) {
    |alg.initial| == 5
    && forall h, block :: |h| == 5 && |block| == 64 ==> |alg.transform(h, block)| == 5
  }

  // ---------------------------------------------------------------------------
  // FIPS 180-4, sections 5.1.1, 5.3.1 and 6.1
  // ---------------------------------------------------------------------------

  /** The hash value after all blocks of `m`. */
  ghost function Fold<W(!new)>(alg: Algorithm<W>, m: seq<byte>): (h: seq<W>)
    requires Sized(alg) && |m| % 64 == 0
    ensures |h| == 5
    decreases |m|
  {
    if |m| == 0 then alg.initial
    else alg.transform(Fold(alg, m[..|m| - 64]), m[|m| - 64..])
  }

  function Zeros(n: nat): (z: seq<byte>)
    ensures |z| == n
  {
    seq(n, i => 0)
  }

  /** The number of zero bytes that brings the message, the mark and the 8-byte length to
      whole blocks. */
  function ZeroCount(n: nat): nat {
    (119 - n % 64) % 64
  }

  /** `n` as eight bytes, the most significant first. */
  function LengthBytes(n: nat): (l: seq<byte>)
    ensures |l| == 8
  {
    [n / 0x100_0000_0000_0000 % 256, n / 0x1_0000_0000_0000 % 256, n / 0x100_0000_0000 % 256, n / 0x1_0000_0000 % 256,
     n / 0x100_0000 % 256, n / 0x1_0000 % 256, n / 0x100 % 256, n % 256]
  }

  function Padded(m: seq<byte>): seq<byte> {
    m + [0x80] + Zeros(ZeroCount(|m|)) + LengthBytes(8 * |m| % 0x1_0000_0000_0000_0000)
  }

  lemma PaddedIsWholeBlocks(m: seq<byte>)
    ensures |Padded(m)| % 64 == 0
    ensures (|m| + 1 + ZeroCount(|m|)) % 64 == 56
  {
    hide LengthBytes, ZeroCount;
    ZeroCountLeast(|m|, 0);
    assert |Padded(m)| == (|m| + 1 + ZeroCount(|m|)) + 8;
  }

  /** No fewer zero bytes would do. */
  lemma ZeroCountLeast(n: nat, k: nat)
    ensures (n + 1 + ZeroCount(n)) % 64 == 56
    ensures k < ZeroCount(n) ==> (n + 1 + k) % 64 != 56
  {
  }

  /** The first `i` bytes of a hash value, most significant byte of each word first. */
  function DigestBytes<W>(alg: Algorithm<W>, h: seq<W>, i: nat): seq<byte>
    requires i <= 4 * |h|
  {
    if i == 0 then [] else DigestBytes(alg, h, i - 1) + [alg.byteAt(h[(i - 1) / 4], (i - 1) % 4)]
  }

  /** The digest of a whole message. */
  ghost function Digest<W(!new)>(alg: Algorithm<W>, m: seq<byte>): seq<byte>
    requires Sized(alg)
  {
    PaddedIsWholeBlocks(m);
    DigestBytes(alg, Fold(alg, Padded(m)), 20)
  }

  // ---------------------------------------------------------------------------
  // The counter and the guards
  // ---------------------------------------------------------------------------

  function LowWord(bytes: nat): nat { 8 * bytes % 0x1_0000_0000 }
  function HighWord(bytes: nat): nat { 8 * bytes / 0x1_0000_0000 % 0x1_0000_0000 }

  /** The sum of two 32-bit words. */
  function Add32(a: nat, b: nat): nat {
    (a + b) % 0x1_0000_0000
  }

  /** The update of the two-word counter - a wrapping addition, its carry, and the bits
      shifted out of the length - adds the length in bits modulo 2^64. */
  lemma CounterStep(n: nat, len: nat)
    requires len < 0x1_0000_0000
    ensures var shifted := len * 8 % 0x1_0000_0000;
            var low := Add32(LowWord(n), shifted);
            var high := if low < shifted then Add32(HighWord(n), 1) else HighWord(n);
            low == LowWord(n + len) && Add32(high, len / 0x2000_0000) == HighWord(n + len)
  {
    var shifted := len * 8 % 0x1_0000_0000;
    var q, carry := 8 * n / 0x1_0000_0000, if LowWord(n) + shifted < 0x1_0000_0000 then 0 else 1;
    WordsSplit(n, len);
    Carries(LowWord(n), shifted);
    ModSum32(q, carry, len / 0x2000_0000);
    ModSum32(q, 0, len / 0x2000_0000);
  }

  /** The length in bits after the piece, in its two parts. */
  lemma WordsSplit(n: nat, len: nat)
    requires len < 0x1_0000_0000
    ensures var shifted, q := len * 8 % 0x1_0000_0000, 8 * n / 0x1_0000_0000;
            var carry := if LowWord(n) + shifted < 0x1_0000_0000 then 0 else 1;
            LowWord(n + len) == LowWord(n) + shifted - 0x1_0000_0000 * carry
            && 8 * (n + len) / 0x1_0000_0000 == q + carry + len / 0x2000_0000
  {
    var shifted := len * 8 % 0x1_0000_0000;
    Divided32(len * 8, len / 0x2000_0000, len % 0x2000_0000 * 8);
    var sum, hi := LowWord(n) + shifted, 8 * n / 0x1_0000_0000 + len / 0x2000_0000;
    if sum < 0x1_0000_0000 {
      Divided32(8 * (n + len), hi, sum);
    } else {
      Divided32(8 * (n + len), hi + 1, sum - 0x1_0000_0000);
    }
  }

  /** A sum has wrapped exactly if it is smaller than what was added. */
  lemma Carries(a: nat, b: nat)
    requires a < 0x1_0000_0000 && b < 0x1_0000_0000
    ensures Add32(a, b) == if a + b < 0x1_0000_0000 then a + b else a + b - 0x1_0000_0000
    ensures Add32(a, b) < b <==> a + b >= 0x1_0000_0000
  {
  }

  lemma Divided32(x: nat, q: nat, r: nat)
    requires x == 0x1_0000_0000 * q + r && r < 0x1_0000_0000
    ensures x / 0x1_0000_0000 == q && x % 0x1_0000_0000 == r
  {
  }

  lemma ModSum32(q: nat, c: nat, l: nat)
    ensures ((q % 0x1_0000_0000 + c) % 0x1_0000_0000 + l) % 0x1_0000_0000 == (q + c + l) % 0x1_0000_0000
  {
  }

  /** The two counter words together are the length in bits modulo 2^64. */
  lemma CounterIsBitLength(n: nat)
    ensures 0x1_0000_0000 * HighWord(n) + LowWord(n) == 8 * n % 0x1_0000_0000_0000_0000
  {
    var q := 8 * n / 0x1_0000_0000;
    assert 8 * n == 0x1_0000_0000 * q + LowWord(n);
    assert q == 0x1_0000_0000 * (q / 0x1_0000_0000) + HighWord(n);
    assert 8 * n == 0x1_0000_0000_0000_0000 * (q / 0x1_0000_0000) + (0x1_0000_0000 * HighWord(n) + LowWord(n));
  }

  /** The test whether a piece fills the buffer is computed in 32 bits. It is right exactly
      when the sum does not wrap. */
  lemma FillTestIsExact(j: nat, len: nat)
    requires j < 64 && len < 0x1_0000_0000
    ensures ((j + len) % 0x1_0000_0000 > 63 <==> j + len > 63) <==> j + len < 0x1_0000_0000
  {
  }

  /** The loop test over whole blocks is then right too: it never wraps. */
  lemma BlockTestIsExact(n: nat, len: nat, i: nat)
    requires n % 64 + len < 0x1_0000_0000 && i <= len && (n + i) % 64 == 0
    ensures i + 63 < 0x1_0000_0000 && (i + 63) % 0x1_0000_0000 == i + 63
  {
    var p := n % 64 + i;
    assert p % 64 == 0;
  }

  lemma NextBlock(n: nat)
    ensures n % 64 == 0 ==> (n + 64) % 64 == 0
  {
  }

  /** The buffer position, three bits up in the low counter word. */
  lemma PositionFromCounter(n: nat)
    ensures LowWord(n) / 8 % 64 == n % 64
  {
    var q := 8 * n / 0x1_0000_0000;
    assert 8 * n == 0x1_0000_0000 * q + LowWord(n);
    assert n == 0x2000_0000 * q + LowWord(n) / 8;
  }

  /** The eight bytes taken from the two counter words are the length in bits. */
  lemma LengthFromWords(n: nat)
    ensures var hi, lo := HighWord(n), LowWord(n);
            [hi / 0x100_0000 % 256, hi / 0x1_0000 % 256, hi / 0x100 % 256, hi % 256,
             lo / 0x100_0000 % 256, lo / 0x1_0000 % 256, lo / 0x100 % 256, lo % 256]
            == LengthBytes(8 * n % 0x1_0000_0000_0000_0000)
  {
    CounterIsBitLength(n);
    HighBytes(HighWord(n), LowWord(n));
    LowBytes(HighWord(n), LowWord(n));
  }

  lemma HighBytes(hi: nat, lo: nat)
    requires hi < 0x1_0000_0000 && lo < 0x1_0000_0000
    ensures var x := 0x1_0000_0000 * hi + lo;
            && x / 0x100_0000_0000_0000 % 256 == hi / 0x100_0000 % 256 && x / 0x1_0000_0000_0000 % 256 == hi / 0x1_0000 % 256
            && x / 0x100_0000_0000 % 256 == hi / 0x100 % 256 && x / 0x1_0000_0000 % 256 == hi % 256
  {
    var x := 0x1_0000_0000 * hi + lo;
    Divided32(x, hi, lo);
    assert x / 0x100_0000_0000_0000 == x / 0x1_0000_0000 / 0x100_0000;
    assert x / 0x1_0000_0000_0000 == x / 0x1_0000_0000 / 0x1_0000;
    assert x / 0x100_0000_0000 == x / 0x1_0000_0000 / 0x100;
  }

  lemma LowBytes(hi: nat, lo: nat)
    requires hi < 0x1_0000_0000 && lo < 0x1_0000_0000
    ensures var x := 0x1_0000_0000 * hi + lo;
            && x / 0x100_0000 % 256 == lo / 0x100_0000 % 256 && x / 0x1_0000 % 256 == lo / 0x1_0000 % 256
            && x / 0x100 % 256 == lo / 0x100 % 256 && x % 256 == lo % 256
  {
    LowByte3(hi, lo);
    LowByte2(hi, lo);
    LowByte1(hi, lo);
    LowByte0(hi, lo);
  }

  lemma LowByte3(hi: nat, lo: nat)
    ensures (0x1_0000_0000 * hi + lo) / 0x100_0000 % 256 == lo / 0x100_0000 % 256
  {
    var x := 0x1_0000_0000 * hi + lo;
    assert x / 0x100_0000 == 256 * hi + lo / 0x100_0000;
    Mod256(hi, lo / 0x100_0000);
  }

  lemma LowByte2(hi: nat, lo: nat)
    ensures (0x1_0000_0000 * hi + lo) / 0x1_0000 % 256 == lo / 0x1_0000 % 256
  {
    var x := 0x1_0000_0000 * hi + lo;
    assert x / 0x1_0000 == 256 * (0x100 * hi) + lo / 0x1_0000;
    Mod256(0x100 * hi, lo / 0x1_0000);
  }

  lemma LowByte1(hi: nat, lo: nat)
    ensures (0x1_0000_0000 * hi + lo) / 0x100 % 256 == lo / 0x100 % 256
  {
    var x := 0x1_0000_0000 * hi + lo;
    assert x / 0x100 == 256 * (0x1_0000 * hi) + lo / 0x100;
    Mod256(0x1_0000 * hi, lo / 0x100);
  }

  lemma Mod256(k: nat, y: nat)
    ensures (256 * k + y) % 256 == y % 256
  {
  }

  lemma LowByte0(hi: nat, lo: nat)
    ensures (0x1_0000_0000 * hi + lo) % 256 == lo % 256
  {
    assert 0x1_0000_0000 * hi + lo == 256 * (0x100_0000 * hi) + lo;
  }

  // ---------------------------------------------------------------------------
  // The context
  // ---------------------------------------------------------------------------

  lemma FoldStep<W(!new)>(alg: Algorithm<W>, m: seq<byte>, p: nat)
    requires Sized(alg) && p % 64 == 0 && p + 64 <= |m|
    ensures Fold(alg, m[..p + 64]) == alg.transform(Fold(alg, m[..p]), m[p..p + 64])
  {
    var q := m[..p + 64];
    assert q[..p] == m[..p] && q[p..] == m[p..p + 64];
  }

  /** The part of a message already hashed, and the rest that waits in the buffer. */
  function Whole(n: nat): (w: nat)
    ensures w <= n
  {
    n - n % 64
  }

  lemma WholeIsBlocks(m: seq<byte>, data: seq<byte>)
    ensures Whole(|m|) % 64 == 0 && Whole(|m|) + |m| % 64 == |m|
    ensures (m + data)[..Whole(|m|)] == m[..Whole(|m|)]
    ensures (m + data)[Whole(|m|)..] == m[Whole(|m|)..] + data
  {
  }

  lemma WholeAfterBlocks(n: nat, len: nat, i: nat)
    requires (n + i) % 64 == 0 && i <= len < i + 64
    ensures Whole(n + len) == n + i && (n + len) % 64 == len - i
  {
  }

  lemma WholeWithoutBlock(n: nat, len: nat)
    requires n % 64 + len < 64
    ensures Whole(n + len) == Whole(n) && (n + len) % 64 == n % 64 + len
  {
  }

  /** The padding loop's test sees the end of the zero bytes in the low counter word. */
  lemma PadTest(n: nat, k: nat)
    requires k <= ZeroCount(n)
    ensures LowWord(n + 1 + k) / 8 % 64 * 8 == 448 <==> k == ZeroCount(n)
  {
    PositionFromCounter(n + 1 + k);
    ZeroCountLeast(n, k);
  }

  lemma FirstBlock(m: seq<byte>, data: seq<byte>, p: nat)
    requires p <= |m| < p + 64 <= |m| + |data|
    ensures (m + data)[p..p + 64] == m[p..] + data[..64 - (|m| - p)]
  {
  }

  lemma LaterBlock(m: seq<byte>, data: seq<byte>, i: nat)
    requires i + 64 <= |data|
    ensures (m + data)[|m| + i..|m| + i + 64] == data[i..i + 64]
  {
  }

  lemma LaterRest(m: seq<byte>, data: seq<byte>, i: nat)
    requires i <= |data|
    ensures (m + data)[|m| + i..] == data[i..]
  {
  }

  lemma EmptyMessage<W(!new)>(alg: Algorithm<W>)
    requires Sized(alg)
    ensures Whole(0) == 0 && Fold(alg, [][..0]) == alg.initial && LowWord(0) == 0 && HighWord(0) == 0
  {
  }

  class Context<W(!new,0)> {
    const alg: Algorithm<W>
    const state: array<W>
    const count: array<nat>
    const buffer: array<byte>
    ghost var msg: seq<byte>

    ghost predicate Shaped() {
      && state.Length == 5 && count.Length == 2 && buffer.Length == 64
      && count as object != buffer as object && state as object != count as object && state as object != buffer as object
      && Sized(alg)
    }

    /** The context describes the message fed so far. */
    ghost predicate Valid()
      reads this, state, count, buffer
    {
      Shaped() && Hashed(msg) && Counted(|msg|)
    }

    /** The blocks of `m` are hashed and its rest waits in the buffer. */
    ghost predicate Hashed(m: seq<byte>)
      requires Shaped()
      reads state, buffer
    {
      state[..] == Fold(alg, m[..Whole(|m|)]) && buffer[..|m| % 64] == m[Whole(|m|)..]
    }

    ghost predicate Counted(n: nat)
      requires Shaped()
      reads count
    {
      count[0] == LowWord(n) && count[1] == HighWord(n)
    }

    constructor (alg: Algorithm<W>)
      requires Sized(alg)
      ensures Valid() && msg == [] && this.alg == alg
      ensures fresh(state) && fresh(count) && fresh(buffer)
    {
      this.alg := alg;
      state := new W[5];
      count := new nat[2];
      buffer := new byte[64];
      msg := [];
      new;
      Init();
    }

    method Init()
      requires Shaped()
      modifies this`msg, state, count
      ensures Valid() && msg == []
    {
      hide Fold, LowWord, HighWord, Whole;
      state[0] := alg.initial[0];
      state[1] := alg.initial[1];
      state[2] := alg.initial[2];
      state[3] := alg.initial[3];
      state[4] := alg.initial[4];
      count[0], count[1] := 0, 0;
      msg := [];
      assert state[..] == alg.initial;
      EmptyMessage(alg);
      assert buffer[..0] == [];
    }

    method Transform(block: seq<byte>)
      requires Shaped() && |block| == 64
      modifies state
      ensures state[..] == alg.transform(old(state[..]), block)
    {
      var h := alg.transform(state[..], block);
      forall i | 0 <= i < 5 { state[i] := h[i]; }
    }

    /** The position in the buffer, from the low counter word. */
    method Position() returns (j: nat)
      requires Shaped() && Counted(|msg|)
      ensures j == |msg| % 64
    {
      PositionFromCounter(|msg|);
      j := count[0] / 8 % 64;
    }

    /** Counts a piece: a wrapping addition with an explicit carry. */
    method Count(len: nat)
      requires Shaped() && len < 0x1_0000_0000 && Counted(|msg|)
      modifies count
      ensures Counted(|msg| + len)
    {
      CounterStep(|msg|, len);
      hide LowWord, HighWord, Add32;
      var shifted := len * 8 % 0x1_0000_0000;
      count[0] := Add32(count[0], shifted);
      if count[0] < shifted {
        count[1] := Add32(count[1], 1);
      }
      count[1] := Add32(count[1], len / 0x2000_0000);
    }

    /** One piece of the message, of any length the 32-bit sum allows. */
    method Update(data: seq<byte>)
      requires Valid() && |msg| % 64 + |data| < 0x1_0000_0000
      modifies this`msg, state, count, buffer
      ensures Valid() && msg == old(msg) + data
    {
      hide Hashed, Counted;
      var j := Position();
      Count(|data|);
      Take(j, data);
      assert |msg + data| == |msg| + |data|;
      msg := msg + data;
    }

    /** The bytes of a piece: blocks are hashed, the rest waits in the buffer. */
    method Take(position: nat, data: seq<byte>)
      requires Shaped() && position == |msg| % 64 && position + |data| < 0x1_0000_0000
      requires Hashed(msg)
      modifies state, buffer
      ensures Hashed(msg + data)
    {
      hide Fold;
      var j, i := Absorb(position, data);
      hide Whole;
      Copy(j, data[i..]);
    }

    /** Hashes as many blocks as buffer and piece complete. The rest of the piece belongs
        at the returned buffer position. */
    method Absorb(position: nat, data: seq<byte>) returns (j: nat, i: nat)
      requires Shaped() && position == |msg| % 64 && position + |data| < 0x1_0000_0000
      requires Hashed(msg)
      modifies state, buffer
      ensures var m := msg + data;
              && i <= |data| && j < 64 && j + (|data| - i) == |m| % 64
              && state[..] == Fold(alg, m[..Whole(|m|)])
              && buffer[..j] + data[i..] == m[Whole(|m|)..]
    {
      hide Fold, Whole;
      ghost var m := msg + data;
      ghost var p := Whole(|msg|);
      WholeIsBlocks(msg, data);
      var len := |data|;
      j := position;
      if (j + len) % 0x1_0000_0000 > 63 {
        i := 64 - j;
        Copy(j, data[..i]);
        FirstBlock(msg, data, p);
        assert buffer[..] == buffer[..64];
        FoldStep(alg, m, p);
        Transform(buffer[..]);
        i := HashBlocks(data, i);
        j := 0;
        WholeAfterBlocks(|msg|, len, i);
        LaterRest(msg, data, i);
      } else {
        i := 0;
        WholeWithoutBlock(|msg|, len);
      }
    }

    /** `memcpy` into the buffer at position `j`. */
    method Copy(j: nat, piece: seq<byte>)
      requires j + |piece| <= buffer.Length
      modifies buffer
      ensures buffer[..j + |piece|] == old(buffer[..j]) + piece
    {
      forall k | j <= k < j + |piece| {
        buffer[k] := piece[k - j];
      }
    }

    /** All whole blocks of a piece from position `i` on. */
    method HashBlocks(data: seq<byte>, start: nat) returns (i: nat)
      requires Shaped() && |msg| % 64 + |data| < 0x1_0000_0000 && start <= |data|
      requires (|msg| + start) % 64 == 0 && state[..] == Fold(alg, (msg + data)[..|msg| + start])
      modifies state
      ensures start <= i <= |data| < i + 64 && (|msg| + i) % 64 == 0
      ensures state[..] == Fold(alg, (msg + data)[..|msg| + i])
    {
      hide Fold;
      ghost var m := msg + data;
      i := start;
      BlockTestIsExact(|msg|, |data|, i);
      while (i + 63) % 0x1_0000_0000 < |data|
        invariant start <= i <= |data| && (|msg| + i) % 64 == 0
        invariant (i + 63) % 0x1_0000_0000 == i + 63
        invariant state[..] == Fold(alg, m[..|msg| + i])
      {
        LaterBlock(msg, data, i);
        FoldStep(alg, m, |msg| + i);
        NextBlock(|msg| + i);
        Transform(data[i..i + 64]);
        i := i + 64;
        BlockTestIsExact(|msg|, |data|, i);
      }
    }

    /** The mark, zero bytes up to the length field, the length, and the digest of the
        message fed since the start. */
    method Final(zero: W) returns (digest: seq<byte>)
      requires Valid()
      modifies this`msg, state, count, buffer
      ensures digest == old(Digest(alg, msg))
    {
      hide Fold, LowWord, HighWord, LengthBytes;
      ghost var m := msg;
      LengthFromWords(|m|);
      var hi, lo := count[1], count[0];
      var finalcount := [hi / 0x100_0000 % 256, hi / 0x1_0000 % 256, hi / 0x100 % 256, hi % 256,
                         lo / 0x100_0000 % 256, lo / 0x1_0000 % 256, lo / 0x100 % 256, lo % 256];
      Pad();
      Update(finalcount);
      assert msg == Padded(m);
      PaddedIsWholeBlocks(m);
      assert msg[..Whole(|msg|)] == msg;
      digest := Output();
      Wipe(zero);
    }

    /** The mark and zero bytes, until the low counter word shows 448 bits in the buffer. */
    method Pad()
      requires Valid()
      modifies this`msg, state, count, buffer
      ensures Valid() && msg == old(msg + [0x80] + Zeros(ZeroCount(|msg|)))
    {
      ghost var m, k := msg, 0;
      hide Hashed, LowWord, HighWord, ZeroCount;
      Update([0x80]);
      assert msg == m + [0x80] + Zeros(0);
      PadTest(|m|, 0);
      while count[0] / 8 % 64 * 8 != 448
        invariant Valid() && k <= ZeroCount(|m|) && msg == m + [0x80] + Zeros(k)
        invariant count[0] / 8 % 64 * 8 == 448 <==> k == ZeroCount(|m|)
        decreases ZeroCount(|m|) - k
      {
        Update([0]);
        k := k + 1;
        assert Zeros(k) == Zeros(k - 1) + [0];
        PadTest(|m|, k);
      }
    }

    /** The hash value as twenty bytes. */
    method Output() returns (digest: seq<byte>)
      requires state.Length == 5
      ensures digest == DigestBytes(alg, state[..], 20)
    {
      digest := [];
      for i := 0 to 20
        invariant digest == DigestBytes(alg, state[..], i)
      {
        digest := digest + [alg.byteAt(state[i / 4], i % 4)];
      }
    }

    method Wipe(zero: W)
      requires Shaped()
      modifies state, count, buffer
    {
      forall i | 0 <= i < 64 { buffer[i] := 0; }
      forall i | 0 <= i < 5 { state[i] := zero; }
      count[0], count[1] := 0, 0;
      Transform(buffer[..]);
    }
  }

  ghost function Joined(pieces: seq<seq<byte>>): seq<byte> {
    if pieces == [] then [] else Joined(pieces[..|pieces| - 1]) + pieces[|pieces| - 1]
  }

  lemma JoinedStep(pieces: seq<seq<byte>>, i: nat)
    ensures Joined(pieces[..0]) == []
    ensures i < |pieces| ==> Joined(pieces[..i + 1]) == Joined(pieces[..i]) + pieces[i]
  {
    if i < |pieces| {
      assert pieces[..i + 1][..i] == pieces[..i];
    }
  }

  /** No piece makes the 32-bit sum wrap at the place in the buffer where it begins. */
  ghost predicate Fitting(pieces: seq<seq<byte>>) {
    forall i :: 0 <= i < |pieces| ==> |Joined(pieces[..i])| % 64 + |pieces[i]| < 0x1_0000_0000
  }

  lemma PieceFits(pieces: seq<seq<byte>>, i: nat)
    requires Fitting(pieces) && i < |pieces|
    ensures |Joined(pieces[..i])| % 64 + |pieces[i]| < 0x1_0000_0000
  {
  }

  /** However a message is cut into pieces, the digest is that of the whole message. */
  method HashPieces<W(!new,0)>(alg: Algorithm<W>, pieces: seq<seq<byte>>, zero: W) returns (digest: seq<byte>)
    requires Sized(alg) && Fitting(pieces)
    ensures digest == Digest(alg, Joined(pieces))
  {
    hide *;
    var context := new Context(alg);
    JoinedStep(pieces, 0);
    for i := 0 to |pieces|
      invariant context.Valid() && context.alg == alg && context.msg == Joined(pieces[..i])
      invariant fresh(context) && fresh(context.state) && fresh(context.count) && fresh(context.buffer)
    {
      JoinedStep(pieces, i);
      PieceFits(pieces, i);
      context.Update(pieces[i]);
    }
    assert pieces[..|pieces|] == pieces;
    digest := context.Final(zero);
  }
}
