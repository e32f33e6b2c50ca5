/** A container in numbers: every field of it byte by byte, and where each file is cut. */
module FupBytes {
  import opened Common
  import opened Fup

  /** Two bytes as a number, the first one in the upper half. */
  predicate Holds(b: seq<byte>, pos: nat, v: int) {
    pos + 2 <= |b| && b[pos] == v / 256 && b[pos + 1] == v % 256
  }

  lemma U16Holds(before: seq<byte>, v: Short, after: seq<byte>)
    ensures Holds(before + U16(v) + after, |before|, v)
  {
  }

  lemma HoldsFurther(a: seq<byte>, pos: nat, v: int, before: seq<byte>, after: seq<byte>)
    requires Holds(a, pos, v)
    ensures Holds(before + a + after, |before| + pos, v)
  {
  }

  /** The bytes as they go through the check. */
  lemma CheckIs(b: seq<byte>, o: seq<bv8>)
    requires |o| == |b| && forall i :: 0 <= i < |b| ==> o[i] as int == b[i]
    ensures Check(b) == Crc16.Serial(0, o) as int
  {
    assert o == Octets(b);
    hide Octets;
  }

  lemma FramedBytes(payload: seq<byte>)
    requires |payload| + 2 < 0x1_0000
    ensures var b := Framed(payload);
      |b| == |payload| + 4 && Holds(b, 0, |payload| + 2) && Holds(b, 2, Check(payload)) && b[4..] == payload
  {
    hide U16, Check, Holds;
    var l, k := U16(|payload| + 2), U16(Check(payload));
    U16Holds([], |payload| + 2, k + payload);
    U16Holds(l, Check(payload), payload);
    assert Framed(payload) == [] + l + (k + payload);
  }

  lemma PayloadBytes(p: Piece)
    ensures var b := PiecePayload(p); Holds(b, 0, p.kind) && Holds(b, 2, |p.data|) && b[4..] == p.data
  {
    hide U16, Holds;
    var k, l := U16(p.kind), U16(|p.data|);
    U16Holds([], p.kind, l + p.data);
    U16Holds(k, |p.data|, p.data);
    assert PiecePayload(p) == [] + k + (l + p.data);
  }

  /** A data block: length of what follows, check, partition type, length of the data, data. */
  lemma BlockBytes(p: Piece)
    ensures var b, n := Framed(PiecePayload(p)), |p.data|;
      && |b| == n + 8
      && Holds(b, 0, n + 6) && Holds(b, 2, Check(b[4..])) && Holds(b, 4, p.kind) && Holds(b, 6, n)
      && b[8..] == p.data
  {
    var q := PiecePayload(p);
    var b := Framed(q);
    FramedBytes(q);
    PayloadBytes(p);
    assert b == b[..4] + q + [];
    HoldsFurther(q, 0, p.kind, b[..4], []);
    HoldsFurther(q, 2, |p.data|, b[..4], []);
    assert b[4..][4..] == b[8..];
    hide Framed, PiecePayload, Check, Holds;
  }

  lemma HeaderPayloadBytes(count: Short)
    ensures HeaderPayload(count) == [0x00, 0x10, 0x23, 0x03, 0, 0, 0, 0, count / 256, count % 256, 0, 0, 0, 0, 0, 0]
  {
    assert U16(0x10) == [0x00, 0x10] && U16(0x2303) == [0x23, 0x03] && U16(0) == [0, 0];
    assert U16(count) == [count / 256, count % 256];
    hide U16;
  }

  /** The first twenty bytes: a length of 18, the check of what follows, the type, 0x2303, and
      the number of blocks behind two words of zero. */
  lemma HeaderBytes(ps: seq<Piece>)
    ensures var c, n := Container(ps), |ps| % 0x1_0000;
      && |c| >= 20 && c[0] == 0 && c[1] == 18 && Holds(c, 2, Check(c[4..20]))
      && c[4..20] == [0x00, 0x10, 0x23, 0x03, 0, 0, 0, 0, n / 256, n % 256, 0, 0, 0, 0, 0, 0]
      && c[20..] == Encode(ps)
  {
    var h := HeaderPayload(|ps| % 0x1_0000);
    HeaderPayloadBytes(|ps| % 0x1_0000);
    FramedBytes(h);
    var f := Framed(h);
    assert f[4..] == h && f[0] == 0 && f[1] == 18;
    hide Framed, HeaderPayload, Check, Encode;
    assert Container(ps) == f + Encode(ps);
    assert Container(ps)[4..20] == h;
  }

  /** A file is cut every 0x7FFA bytes, and always has a last piece that is shorter. */
  lemma {:induction false} PiecesAt(kind: Short, data: seq<byte>, i: nat)
    ensures |Pieces(kind, data)| == |data| / 0x7FFA + 1
    ensures i <= |data| / 0x7FFA ==>
      i * 0x7FFA <= |data|
      && Pieces(kind, data)[i].kind == kind
      && Pieces(kind, data)[i].data == data[i * 0x7FFA..if i * 0x7FFA + 0x7FFA < |data| then i * 0x7FFA + 0x7FFA else |data|]
    decreases |data|
  {
    if |data| >= 0x7FFA {
      var rest := data[0x7FFA..];
      PiecesAt(kind, rest, if i == 0 then 0 else i - 1);
      OneLess(|data|);
      if 0 < i <= |data| / 0x7FFA {
        assert Pieces(kind, data)[i] == Pieces(kind, rest)[i - 1];
        SliceShifted(data, (i - 1) * 0x7FFA);
      }
    }
  }

  lemma OneLess(n: nat)
    requires n >= 0x7FFA
    ensures n / 0x7FFA == (n - 0x7FFA) / 0x7FFA + 1
  {
  }

  lemma SliceShifted(data: seq<byte>, a: nat)
    requires |data| >= 0x7FFA && a <= |data| - 0x7FFA
    ensures var rest := data[0x7FFA..];
      rest[a..if a + 0x7FFA < |rest| then a + 0x7FFA else |rest|]
      == data[a + 0x7FFA..if a + 0x7FFA + 0x7FFA < |data| then a + 0x7FFA + 0x7FFA else |data|]
  {
  }

  /** Blocks and files follow each other in the order given, with nothing between them. */
  lemma InOrder(ps: seq<Piece>, p: Piece, parts: seq<Part>, part: Part)
    ensures Encode(ps + [p]) == Encode(ps) + Framed(PiecePayload(p)) && Encode([]) == []
    ensures AllPieces(parts + [part]) == AllPieces(parts) + Pieces(part.kind, part.data) && AllPieces([]) == []
  {
    EncodePush(ps, p);
    AllPiecesStep(parts + [part], |parts|);
    assert (parts + [part])[..|parts| + 1] == parts + [part] && (parts + [part])[..|parts|] == parts;
    hide Framed, Encode, Pieces, AllPieces, PiecePayload;
    NothingAtAll();
  }

  lemma NothingAtAll()
    ensures Encode([]) == [] && AllPieces([]) == []
  {
  }

  /** From 128 files on only as many are used as the count leaves over 128. */
  lemma UsedIs(parts: seq<Part>)
    ensures Used(parts) == parts[..|parts| % 128]
  {
    HalfTheArguments(|parts|);
    hide ArgumentCount;
  }

  /** Types from 17 on are left out of the output files. */
  lemma {:induction false} NotWritten(parts: seq<Part>, kind: Short)
    requires kind >= 17
    ensures kind !in ByKind(parts)
    decreases |parts|
  {
    if parts != [] {
      NotWritten(parts[..|parts| - 1], kind);
    }
  }
}
