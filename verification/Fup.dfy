/** The firmware container: a header block, then each file cut into checked blocks of at
    most 0x7FFA bytes; the header's block count and its check are filled in at the end. */
module Fup {
  import opened Common
  import Crc16

  // ---------------------------------------------------------------------------
  // Sixteen-bit numbers and checks
  // ---------------------------------------------------------------------------

  type Short = x: int | 0 <= x < 0x1_0000

  function Hi(v: Short): byte { v / 256 }
  function Lo(v: Short): byte { v % 256 }

  function ToShort(hi: byte, lo: byte): Short {
    lo + hi * 256
  }

  lemma ShortBack(v: Short)
    ensures ToShort(Hi(v), Lo(v)) == v
  {
  }

  /** `insertint16_t` of one value. */
  function U16(v: Short): (b: seq<byte>)
    ensures |b| == 2
  {
    [Hi(v), Lo(v)]
  }

  /** `extractShort`. */
  function ShortAt(b: seq<byte>, pos: nat): Short
    requires pos + 2 <= |b|
  {
    ToShort(b[pos], b[pos + 1])
  }

  /** A field reads back where it was put. */
  lemma FieldAt(before: seq<byte>, v: Short, after: seq<byte>)
    ensures ShortAt(before + U16(v) + after, |before|) == v
  {
    ShortBack(v);
    hide Hi, Lo, ToShort;
  }

  function Octets(buffer: seq<byte>): seq<bv8> {
    seq(|buffer|, i requires 0 <= i < |buffer| => buffer[i] as bv8)
  }

  function Check(buffer: seq<byte>): Short {
    Crc16.Serial(0, Octets(buffer)) as int
  }

  // ---------------------------------------------------------------------------
  // The format
  // ---------------------------------------------------------------------------

  /** One block: length of what follows it, check, payload. */
  function Framed(payload: seq<byte>): (b: seq<byte>)
    requires |payload| + 2 < 0x1_0000
    ensures |b| == |payload| + 4
  {
    U16(|payload| + 2) + U16(Check(payload)) + payload
  }

  /** A piece of a file of some partition type. */
  datatype AnyPiece = Piece(kind: Short, data: seq<byte>)
  type Piece = p: AnyPiece | |p.data| <= 0x7FFA witness Piece(0, [])

  function PiecePayload(p: Piece): (b: seq<byte>)
    ensures |b| == |p.data| + 4
  {
    U16(p.kind) + U16(|p.data|) + p.data
  }

  function HeaderPayload(count: Short): (h: seq<byte>)
    ensures |h| == 16
  {
    U16(0x10) + U16(0x2303) + U16(0) + U16(0) + U16(count) + U16(0) + U16(0) + U16(0)
  }

  /** A file cut up: full blocks, then one that is not full - empty if the length is a
      multiple of the block size. */
  function Pieces(kind: Short, data: seq<byte>): (ps: seq<Piece>)
    decreases |data|
  {
    if |data| < 0x7FFA then [Piece(kind, data)]
    else [Piece(kind, data[..0x7FFA])] + Pieces(kind, data[0x7FFA..])
  }

  datatype Part = Part(kind: Short, data: seq<byte>)

  function AllPieces(parts: seq<Part>): (ps: seq<Piece>)
  {
    if parts == [] then []
    else AllPieces(parts[..|parts| - 1]) + Pieces(parts[|parts| - 1].kind, parts[|parts| - 1].data)
  }

  function Encode(ps: seq<Piece>): seq<byte>
  {
    if ps == [] then [] else Encode(ps[..|ps| - 1]) + Framed(PiecePayload(ps[|ps| - 1]))
  }

  function Container(ps: seq<Piece>): seq<byte>
  {
    Framed(HeaderPayload(|ps| % 0x1_0000)) + Encode(ps)
  }

  /** The number of arguments after the file name, two for each file, kept in a byte. */
  function ArgumentCount(n: nat): nat {
    2 * n % 256
  }

  /** The files the program gets to. */
  function Used(parts: seq<Part>): seq<Part> {
    parts[..ArgumentCount(|parts|) / 2]
  }

  // ---------------------------------------------------------------------------
  // Reading
  // ---------------------------------------------------------------------------

  /** A block as read: its payload and the check stored with it. */
  datatype Block = Block(payload: seq<byte>, crc: Short)

  function LengthAt(c: seq<byte>): Short {
    if |c| < 2 then 0 else ShortAt(c, 0)
  }

  /** The read loop ends at a zero length (as at the end of the file) or a cut-off block. */
  predicate AtEnd(c: seq<byte>) {
    LengthAt(c) < 6 || |c| < LengthAt(c) + 2
  }

  function Blocks(c: seq<byte>): seq<Block>
    decreases |c|
  {
    if AtEnd(c) then []
    else
      var len := LengthAt(c);
      [Block(c[4..len + 2], ShortAt(c, 2))] + Blocks(c[len + 2..])
  }

  /** No block is too short for its own type and length fields. */
  predicate Sane(c: seq<byte>)
    decreases |c|
  {
    LengthAt(c) == 0 || (LengthAt(c) >= 6 && (AtEnd(c) || Sane(c[LengthAt(c) + 2..])))
  }

  type Output = map<Short, seq<byte>>

  /** The files written: one per partition type, opened when the type is first seen. Types
      from 17 on are not written. */
  function Add(out: Output, kind: Short, data: seq<byte>): Output {
    if kind >= 17 then out else out[kind := (if kind in out then out[kind] else []) + data]
  }

  predicate IsHeader(b: Block, first: bool)
    requires |b.payload| >= 4
  {
    first && ShortAt(b.payload, 0) == 0x10
  }

  function ExtractBlocks(out: Output, bs: seq<Block>, first: bool): Output
    requires forall b :: b in bs ==> |b.payload| >= 4
    decreases |bs|
  {
    if bs == [] then out
    else
      var b := bs[0];
      ExtractBlocks(if IsHeader(b, first) then out else Add(out, ShortAt(b.payload, 0), b.payload[4..]), bs[1..], false)
  }

  function Extract(c: seq<byte>): Output {
    BlocksWide(c);
    ExtractBlocks(map[], Blocks(c), true)
  }

  // ---------------------------------------------------------------------------
  // What a created container contains
  // ---------------------------------------------------------------------------

  lemma BlocksWide(c: seq<byte>)
    ensures forall b :: b in Blocks(c) ==> |b.payload| >= 4
    decreases |c|
  {
    if !AtEnd(c) {
      BlocksWide(c[LengthAt(c) + 2..]);
    }
  }

  /** A framed payload is read back, with a matching check, and reading goes on behind it. */
  lemma FramedBack(payload: seq<byte>, rest: seq<byte>)
    requires 4 <= |payload| < 0xFFFE
    ensures Blocks(Framed(payload) + rest) == [Block(payload, Check(payload))] + Blocks(rest)
    ensures Sane(Framed(payload) + rest) <==> Sane(rest)
  {
    var c := Framed(payload) + rest;
    FramedFields(payload, rest);
    hide Framed, Check, ShortAt;
    assert LengthAt(c) == |payload| + 2 && !AtEnd(c);
  }

  lemma FramedFields(payload: seq<byte>, rest: seq<byte>)
    requires |payload| < 0xFFFE
    ensures var c := Framed(payload) + rest;
            && ShortAt(c, 0) == |payload| + 2 && ShortAt(c, 2) == Check(payload)
            && c[4..|payload| + 4] == payload && c[|payload| + 4..] == rest
  {
    hide Check, U16, ShortAt;
    var c := Framed(payload) + rest;
    var l, k := U16(|payload| + 2), U16(Check(payload));
    FieldAt([], |payload| + 2, k + payload + rest);
    FieldAt(l, Check(payload), payload + rest);
    assert c == [] + l + (k + payload + rest);
    assert c == l + k + (payload + rest);
  }

  function Raw(p: Piece): Block
  {
    Block(PiecePayload(p), Check(PiecePayload(p)))
  }

  function RawAll(ps: seq<Piece>): (bs: seq<Block>)
    ensures |bs| == |ps|
  {
    seq(|ps|, i requires 0 <= i < |ps| => Raw(ps[i]))
  }

  lemma {:induction false} EncodeBack(ps: seq<Piece>, rest: seq<byte>)
    ensures Blocks(Encode(ps) + rest) == RawAll(ps) + Blocks(rest)
    ensures Sane(Encode(ps) + rest) <==> Sane(rest)
    decreases |ps|
  {
    hide Framed, PiecePayload, Blocks, Sane;
    if ps == [] {
      assert Encode(ps) + rest == rest;
    } else {
      var n := |ps| - 1;
      var f := Framed(PiecePayload(ps[n]));
      assert Encode(ps) + rest == Encode(ps[..n]) + (f + rest);
      EncodeBack(ps[..n], f + rest);
      PieceFramed(ps[n], rest);
      assert RawAll(ps) == RawAll(ps[..n]) + [Raw(ps[n])];
    }
  }

  lemma PieceFramed(p: Piece, rest: seq<byte>)
    ensures Blocks(Framed(PiecePayload(p)) + rest) == [Raw(p)] + Blocks(rest)
    ensures Sane(Framed(PiecePayload(p)) + rest) <==> Sane(rest)
  {
    FramedBack(PiecePayload(p), rest);
  }

  /** A created container reads back as its header and its pieces, block by block, and
      every check stored in it matches its payload. */
  lemma ContainerBlocks(ps: seq<Piece>)
    ensures var header := HeaderPayload(|ps| % 0x1_0000);
            Blocks(Container(ps)) == [Block(header, Check(header))] + RawAll(ps)
    ensures Sane(Container(ps))
    ensures forall b :: b in Blocks(Container(ps)) ==> b.crc == Check(b.payload)
  {
    hide Check, Framed, Encode, HeaderPayload;
    var header := HeaderPayload(|ps| % 0x1_0000);
    FramedBack(header, Encode(ps));
    EncodeBack(ps, []);
    assert Encode(ps) + [] == Encode(ps);
    assert Blocks([]) == [];
  }

  /** The header's count is the number of data blocks exactly while they are fewer than
      65536. */
  lemma HeaderCountIsExact(n: nat)
    ensures ShortAt(HeaderPayload(n % 0x1_0000), 8) == n <==> n < 0x1_0000
  {
    hide *;
    var m := n % 0x1_0000;
    HeaderFields(m);
  }

  lemma HeaderFields(count: Short)
    ensures ShortAt(HeaderPayload(count), 0) == 0x10 && ShortAt(HeaderPayload(count), 8) == count
  {
    hide U16, ShortAt;
    var a, b := U16(0x2303) + U16(0) + U16(0), U16(0) + U16(0) + U16(0);
    FieldAt([], 0x10, a + U16(count) + b);
    FieldAt(U16(0x10) + a, count, b);
    assert HeaderPayload(count) == [] + U16(0x10) + (a + U16(count) + b);
    assert HeaderPayload(count) == (U16(0x10) + a) + U16(count) + b;
  }

  /** The pieces of one file, added one after the other, are the file. */
  function AddPieces(out: Output, ps: seq<Piece>): Output
    decreases |ps|
  {
    if ps == [] then out else AddPieces(Add(out, ps[0].kind, ps[0].data), ps[1..])
  }

  lemma AddTwice(out: Output, kind: Short, a: seq<byte>, b: seq<byte>)
    ensures Add(Add(out, kind, a), kind, b) == Add(out, kind, a + b)
  {
    if kind < 17 {
      var old' := if kind in out then out[kind] else [];
      assert (old' + a) + b == old' + (a + b);
    }
  }

  lemma {:induction false} PiecesAddUp(out: Output, kind: Short, data: seq<byte>)
    ensures AddPieces(out, Pieces(kind, data)) == Add(out, kind, data)
    decreases |data|
  {
    if |data| < 0x7FFA {
      assert AddPieces(Add(out, kind, data), []) == Add(out, kind, data);
    } else {
      var a, b := data[..0x7FFA], data[0x7FFA..];
      var ps := Pieces(kind, data);
      assert ps[0] == Piece(kind, a) && ps[1..] == Pieces(kind, b);
      PiecesAddUp(Add(out, kind, a), kind, b);
      AddTwice(out, kind, a, b);
      assert a + b == data;
    }
  }

  lemma {:induction false} AddPiecesJoin(out: Output, a: seq<Piece>, b: seq<Piece>)
    ensures AddPieces(out, a + b) == AddPieces(AddPieces(out, a), b)
    decreases |a|
  {
    if a == [] {
      assert a + b == b;
    } else {
      assert (a + b)[1..] == a[1..] + b;
      AddPiecesJoin(Add(out, a[0].kind, a[0].data), a[1..], b);
    }
  }

  /** The files joined by partition type. */
  function ByKind(parts: seq<Part>): Output {
    if parts == [] then map[]
    else Add(ByKind(parts[..|parts| - 1]), parts[|parts| - 1].kind, parts[|parts| - 1].data)
  }

  /** The contents of the files of one type, in the order they were given. */
  function Joined(parts: seq<Part>, kind: Short): seq<byte> {
    if parts == [] then []
    else Joined(parts[..|parts| - 1], kind)
         + (if parts[|parts| - 1].kind == kind then parts[|parts| - 1].data else [])
  }

  lemma {:induction false} ByKindIsJoined(parts: seq<Part>, kind: Short)
    requires kind < 17
    ensures kind in ByKind(parts) <==> exists i :: 0 <= i < |parts| && parts[i].kind == kind
    ensures kind in ByKind(parts) ==> ByKind(parts)[kind] == Joined(parts, kind)
    ensures kind !in ByKind(parts) ==> Joined(parts, kind) == []
  {
    if parts != [] {
      var n := |parts| - 1;
      ByKindIsJoined(parts[..n], kind);
      if kind in ByKind(parts[..n]) {
        var i :| 0 <= i < n && parts[..n][i].kind == kind;
        assert parts[i].kind == kind;
      }
      if i :| 0 <= i < |parts| && parts[i].kind == kind {
        assert i < n ==> parts[..n][i].kind == kind;
      }
    }
  }

  lemma {:induction false} AllPiecesAddUp(parts: seq<Part>)
    ensures AddPieces(map[], AllPieces(parts)) == ByKind(parts)
  {
    if parts != [] {
      var n := |parts| - 1;
      AllPiecesAddUp(parts[..n]);
      AddPiecesJoin(map[], AllPieces(parts[..n]), Pieces(parts[n].kind, parts[n].data));
      PiecesAddUp(ByKind(parts[..n]), parts[n].kind, parts[n].data);
    }
  }

  lemma RawFields(p: Piece)
    ensures ShortAt(Raw(p).payload, 0) == p.kind && Raw(p).payload[4..] == p.data
  {
    hide Check, U16, ShortAt;
    FieldAt([], p.kind, U16(|p.data|) + p.data);
    assert PiecePayload(p) == [] + U16(p.kind) + (U16(|p.data|) + p.data);
  }

  lemma {:induction false} RawAddUp(out: Output, ps: seq<Piece>)
    ensures forall b :: b in RawAll(ps) ==> |b.payload| >= 4
    ensures ExtractBlocks(out, RawAll(ps), false) == AddPieces(out, ps)
    decreases |ps|
  {
    hide Check, ShortAt, PiecePayload;
    if ps != [] {
      RawFields(ps[0]);
      assert RawAll(ps)[0] == Raw(ps[0]) && RawAll(ps)[1..] == RawAll(ps[1..]);
      RawAddUp(Add(out, ps[0].kind, ps[0].data), ps[1..]);
    }
  }

  /** Extracting a created container gives, for each partition type, the files added with
      that type, joined - whatever their sizes. */
  lemma RoundTrip(parts: seq<Part>)
    ensures Extract(Container(AllPieces(Used(parts)))) == ByKind(Used(parts))
  {
    var ps := AllPieces(Used(parts));
    var c, header := Container(ps), HeaderPayload(|ps| % 0x1_0000);
    ContainerBlocks(ps);
    HeaderFields(|ps| % 0x1_0000);
    RawAddUp(map[], ps);
    AllPiecesAddUp(Used(parts));
    hide Check, ShortAt, Container, HeaderPayload, AllPieces, Used;
    BlocksWide(c);
    assert Blocks(c)[0] == Block(header, Check(header)) && Blocks(c)[1..] == RawAll(ps);
  }

  /** The byte that counts the arguments: every file goes in exactly while they are fewer
      than 128. */
  lemma AllUsedIff(parts: seq<Part>)
    ensures Used(parts) == parts <==> |parts| < 128
  {
    HalfTheArguments(|parts|);
    hide ArgumentCount;
  }

  lemma HalfTheArguments(n: nat)
    ensures ArgumentCount(n) / 2 == n % 128
  {
    var q, r := n / 128, n % 128;
    assert 2 * n == 256 * q + 2 * r;
    RemainderIs(2 * n, q, 2 * r);
  }

  lemma RemainderIs(a: nat, q: nat, r: nat)
    requires a == 256 * q + r && r < 256
    ensures a % 256 == r
  {
  }

  // ---------------------------------------------------------------------------
  // The program
  // ---------------------------------------------------------------------------

  /** An open file. */
  class File {
    var content: seq<byte>
    var pos: nat

    constructor (content: seq<byte>)
      ensures this.content == content && pos == 0
    {
      this.content := content;
      pos := 0;
    }

    method Write(b: seq<byte>)
      requires pos <= |content|
      modifies this
      ensures pos == old(pos) + |b| && pos <= |content|
      ensures content == old(content[..pos]) + b
                         + (if old(pos) + |b| < old(|content|) then old(content)[old(pos) + |b|..] else [])
    {
      content := content[..pos] + b + (if pos + |b| < |content| then content[pos + |b|..] else []);
      pos := pos + |b|;
    }

    /** Up to `n` bytes, fewer at the end of the file. */
    method Read(n: nat) returns (b: seq<byte>)
      requires pos <= |content|
      modifies `pos
      ensures pos == old(pos) + |b| <= |content|
      ensures b == content[old(pos)..pos] && |b| == if n <= |content| - old(pos) then n else |content| - old(pos)
    {
      var m := if n <= |content| - pos then n else |content| - pos;
      b := content[pos..pos + m];
      pos := pos + m;
    }

    method Seek(p: nat)
      modifies `pos
      ensures pos == p
    {
      pos := p;
    }
  }

  method InsertInt16(buf: array<byte>, pos: nat, value: Short)
    requires pos + 2 <= buf.Length
    modifies buf
    ensures buf[..] == old(buf[..pos]) + U16(value) + old(buf[pos + 2..])
  {
    hide Hi, Lo;
    buf[pos] := Hi(value);
    buf[pos + 1] := Lo(value);
  }

  /** `crc16` over a payload, as a number. */
  method CheckOf(buffer: seq<byte>) returns (crc: Short)
    ensures crc == Check(buffer)
  {
    var c := Crc16.ComputeCrc16(0, Octets(buffer));
    crc := c as int;
  }

  /** The block in front of everything else, with a count still to be filled in. */
  method WriteHeader(ird: File) returns (len: nat)
    requires ird.pos == |ird.content|
    modifies ird
    ensures ird.content == old(ird.content) + Framed(HeaderPayload(0xFFFF)) && ird.pos == |ird.content|
    ensures len == 12
  {
    hide Check, Hi, Lo;
    var payload := U16(0x10) + U16(0x2303) + U16(0) + U16(0) + U16(0xFFFF) + U16(0) + U16(0) + U16(0);
    WriteFramed(ird, payload);
    return 12;
  }

  method WriteFramed(ird: File, payload: seq<byte>)
    requires ird.pos == |ird.content| && |payload| + 2 < 0x1_0000
    modifies ird
    ensures ird.content == old(ird.content) + Framed(payload) && ird.pos == |ird.content|
  {
    hide Check, Hi, Lo;
    var dataCrc := CheckOf(payload);
    var blockHeader := U16(|payload| + 2) + U16(dataCrc);
    ird.Write(blockHeader);
    ird.Write(payload);
  }

  /** One data block: whatever the file still has, up to the block size. */
  method WriteBlock(ird: File, file: File, kind: Short) returns (len: nat)
    requires ird != file && ird.pos == |ird.content| && file.pos <= |file.content|
    modifies ird, file`pos
    ensures file.pos <= |file.content| && len == file.pos - old(file.pos)
    ensures len == if |file.content| - old(file.pos) < 0x7FFA then |file.content| - old(file.pos) else 0x7FFA
    ensures ird.content == old(ird.content) + Framed(PiecePayload(Piece(kind, file.content[old(file.pos)..file.pos])))
    ensures ird.pos == |ird.content|
  {
    hide Check, Hi, Lo, Framed;
    var dataBuf := new byte[0x7FFE];
    var data := file.Read(0x7FFA);
    forall i | 4 <= i < 4 + |data| {
      dataBuf[i] := data[i - 4];
    }
    assert dataBuf[4..4 + |data|] == data;
    ghost var tail := dataBuf[4..];
    InsertInt16(dataBuf, 0, kind);
    InsertInt16(dataBuf, 2, |data|);
    assert dataBuf[..] == U16(kind) + U16(|data|) + tail;
    assert tail[..|data|] == data;
    assert dataBuf[..4 + |data|] == PiecePayload(Piece(kind, data));
    WriteFramed(ird, dataBuf[..4 + |data|]);
    return |data|;
  }

  lemma PiecesStep(kind: Short, data: seq<byte>, p: nat)
    requires p <= |data|
    ensures |data| - p < 0x7FFA ==> Pieces(kind, data[p..]) == [Piece(kind, data[p..])]
    ensures |data| - p >= 0x7FFA ==>
              Pieces(kind, data[p..]) == [Piece(kind, data[p..p + 0x7FFA])] + Pieces(kind, data[p + 0x7FFA..])
  {
    if |data| - p >= 0x7FFA {
      assert data[p..][..0x7FFA] == data[p..p + 0x7FFA] && data[p..][0x7FFA..] == data[p + 0x7FFA..];
    }
  }

  lemma EncodePush(ps: seq<Piece>, p: Piece)
    ensures Encode(ps + [p]) == Encode(ps) + Framed(PiecePayload(p))
  {
    hide Framed, PiecePayload;
    assert (ps + [p])[..|ps|] == ps;
  }

  lemma CountUp(n: nat)
    ensures (n % 0x1_0000 + 1) % 0x1_0000 == (n + 1) % 0x1_0000
  {
  }

  /** All blocks of one file; the last one is the first that is not full. */
  method WritePart(ird: File, part: Part, total: nat, ghost head: seq<byte>, ghost ps: seq<Piece>) returns (count: nat)
    requires ird.pos == |ird.content| && ird.content == head + Encode(ps)
    requires total == |ps| % 0x1_0000
    modifies ird
    ensures ird.pos == |ird.content|
    ensures ird.content == head + Encode(ps + Pieces(part.kind, part.data))
    ensures count == |ps + Pieces(part.kind, part.data)| % 0x1_0000
  {
    hide *;
    var file := new File(part.data);
    ghost var all := ps + Pieces(part.kind, part.data);
    ghost var done: seq<Piece> := ps;
    count := total;
    assert part.data[0..] == part.data;
    while true
      invariant ird != file && file.content == part.data && file.pos <= |part.data|
      invariant ird.pos == |ird.content| && ird.content == head + Encode(done)
      invariant count == |done| % 0x1_0000
      invariant done + Pieces(part.kind, part.data[file.pos..]) == all
      decreases |part.data| - file.pos
    {
      ghost var p := file.pos;
      PiecesStep(part.kind, part.data, p);
      var len := WriteBlock(ird, file, part.kind);
      ghost var piece: Piece := Piece(part.kind, part.data[p..file.pos]);
      EncodePush(done, piece);
      CountUp(|done|);
      done := done + [piece];
      if len != 0x7FFA {
        assert part.data[p..file.pos] == part.data[p..];
        break;
      }
      count := (count + 1) % 0x1_0000;
    }
    count := (count + 1) % 0x1_0000;
  }

  /** `fup -c`: the header, the files, and then the header's count and check. */
  method Create(parts: seq<Part>) returns (ird: File)
    ensures fresh(ird) && ird.content == Container(AllPieces(Used(parts)))
  {
    hide Encode, Framed, HeaderPayload, AllPieces;
    ird := new File([]);
    var headerLen := WriteHeader(ird);
    headerLen := headerLen + 4;
    var total := WriteParts(ird, parts);
    RefreshHeader(ird, headerLen, total, Encode(AllPieces(Used(parts))));
  }

  /** The files named by the arguments, as far as the byte-sized argument count goes. */
  method WriteParts(ird: File, parts: seq<Part>) returns (total: Short)
    requires ird.pos == |ird.content|
    modifies ird
    ensures ird.content == old(ird.content) + Encode(AllPieces(Used(parts)))
    ensures total == |AllPieces(Used(parts))| % 0x1_0000
  {
    hide *;
    ghost var head := ird.content;
    total := 0;
    var appendPartCount := ArgumentCount(|parts|);
    HoldsNone(ird, parts);
    ghost var n := UsedCount(|parts|);
    var i := 0;
    ghost var k := 0;
    while i < appendPartCount
      invariant i == 2 * k && k <= n
      invariant Holds(ird, parts, k, total, head)
    {
      total := AddPart(ird, parts, i / 2, total, head);
      i := i + 2;
      k := k + 1;
    }
    HoldsAll(ird, parts, total, head, n);
  }

  /** The container after the first `k` files. */
  ghost predicate Holds(ird: File, parts: seq<Part>, k: nat, total: int, head: seq<byte>)
    requires k <= |parts|
    reads ird
  {
    && ird.pos == |ird.content| && ird.content == head + Encode(AllPieces(parts[..k]))
    && total == |AllPieces(parts[..k])| % 0x1_0000
  }

  lemma HoldsAll(ird: File, parts: seq<Part>, total: int, head: seq<byte>, n: nat)
    requires ArgumentCount(|parts|) == 2 * n && n <= |parts| && Holds(ird, parts, n, total, head)
    ensures ird.content == head + Encode(AllPieces(Used(parts))) && total == |AllPieces(Used(parts))| % 0x1_0000
  {
    hide Encode, AllPieces, Pieces;
    assert Used(parts) == parts[..n];
  }

  lemma HoldsNone(ird: File, parts: seq<Part>)
    requires ird.pos == |ird.content|
    ensures Holds(ird, parts, 0, 0, ird.content)
  {
    assert AllPieces(parts[..0]) == [] && Encode([]) == [];
    assert ird.content + [] == ird.content;
  }

  method AddPart(ird: File, parts: seq<Part>, k: nat, total: nat, ghost head: seq<byte>) returns (count: Short)
    requires k < |parts| && Holds(ird, parts, k, total, head)
    modifies ird
    ensures Holds(ird, parts, k + 1, count, head)
  {
    AllPiecesStep(parts, k);
    hide Encode, Pieces, AllPieces;
    count := WritePart(ird, parts[k], total, head, AllPieces(parts[..k]));
  }

  lemma UsedCount(n: nat) returns (k: nat)
    ensures ArgumentCount(n) == 2 * k && k <= n
  {
    k := n % 128;
  }

  lemma AllPiecesStep(parts: seq<Part>, k: nat)
    requires k < |parts|
    ensures AllPieces(parts[..k + 1]) == AllPieces(parts[..k]) + Pieces(parts[k].kind, parts[k].data)
  {
    assert parts[..k + 1][..k] == parts[..k];
  }

  /** Reads the header's payload, puts the count in, writes it back, and stores its new
      check in front of it. */
  method RefreshHeader(ird: File, headerLen: nat, total: Short, ghost rest: seq<byte>)
    requires headerLen == 16 && ird.content == Framed(HeaderPayload(0xFFFF)) + rest
    modifies ird
    ensures ird.content == Framed(HeaderPayload(total)) + rest
  {
    hide Check, Hi, Lo, U16, HeaderPayload, Framed;
    var dataBuf := new byte[headerLen];
    ghost var before := ird.content;
    ird.Seek(4);
    var data := ird.Read(headerLen);
    assert data == HeaderPayload(0xFFFF) by {
      FramedFields(HeaderPayload(0xFFFF), rest);
    }
    forall i | 0 <= i < headerLen {
      dataBuf[i] := data[i];
    }
    assert dataBuf[..] == data;
    InsertInt16(dataBuf, 8, total);
    HeaderPatched(total);
    ird.Seek(4);
    ird.Write(dataBuf[..]);
    ghost var patched := ird.content;
    assert patched == before[..4] + HeaderPayload(total) + before[20..];
    var dataCrc := CheckOf(dataBuf[..]);
    ird.Seek(2);
    ird.Write(U16(dataCrc));
    FramePatched(HeaderPayload(0xFFFF), HeaderPayload(total), rest, before, patched);
  }

  /** Overwriting payload and check of a framed block frames the new payload. */
  lemma {:induction false} FramePatched(p: seq<byte>, q: seq<byte>, rest: seq<byte>, before: seq<byte>, patched: seq<byte>)
    requires |p| == |q| && |p| + 2 < 0x1_0000 && before == Framed(p) + rest
    requires patched == before[..4] + q + before[4 + |q|..]
    ensures patched[..2] + U16(Check(q)) + patched[4..] == Framed(q) + rest
  {
    hide Check, U16;
    assert before[..2] == U16(|p| + 2);
    assert before[4 + |q|..] == rest;
    assert patched[..2] == before[..2] && patched[4..] == q + rest;
    assert U16(|q| + 2) + U16(Check(q)) + (q + rest) == Framed(q) + rest;
  }

  lemma HeaderPatched(count: Short)
    ensures HeaderPayload(0xFFFF)[..8] + U16(count) + HeaderPayload(0xFFFF)[10..] == HeaderPayload(count)
  {
    hide U16;
  }

  method ReadShort(file: File) returns (v: Short)
    requires file.pos <= |file.content|
    modifies file`pos
    ensures v == LengthAt(file.content[old(file.pos)..])
    ensures old(file.pos) <= file.pos <= |file.content|
    ensures |file.content| - old(file.pos) >= 2 ==> file.pos == old(file.pos) + 2
  {
    hide ToShort;
    var b := file.Read(2);
    if |b| == 2 {
      v := ToShort(b[0], b[1]);
    } else {
      v := 0;
    }
  }

  /** One block of a container into the output files; 0 at the end. */
  method ReadBlock(file: File, out: Output, firstBlock: bool) returns (len: nat, out': Output)
    requires file.pos <= |file.content| && Sane(file.content[file.pos..])
    modifies file`pos
    ensures file.pos <= |file.content|
    ensures var c := file.content[old(file.pos)..];
            if AtEnd(c) then len == 0 && out' == out
            else
              && len == LengthAt(c)
              && var b := Block(c[4..len + 2], ShortAt(c, 2));
                 out' == if IsHeader(b, firstBlock) then out else Add(out, ShortAt(b.payload, 0), b.payload[4..])
  {
    hide ToShort, Add;
    ghost var c := file.content[file.pos..];
    out' := out;
    len := ReadShort(file);
    if len == 0 {
      return;
    }
    var crc := ReadShort(file);
    var dataBuf := file.Read(len - 2);
    if |dataBuf| != len - 2 {
      return 0, out;
    }
    assert dataBuf == c[4..len + 2];
    var kind := ShortAt(dataBuf, 0);
    if firstBlock && kind == 0x10 {
      return;
    }
    out' := Add(out, kind, dataBuf[4..]);
  }

  /** `fup -x`: block after block, each found by the length of the one before. */
  method ExtractContainer(file: File) returns (out: Output)
    requires file.pos == 0 && Sane(file.content)
    modifies file`pos
    ensures out == Extract(file.content)
  {
    BlocksWide(file.content);
    out := map[];
    var firstBlock, pos := true, 0;
    assert file.content[0..] == file.content;
    hide ToShort, Add;
    while true
      invariant pos <= |file.content| && file.pos == pos && Sane(file.content[pos..])
      invariant forall b :: b in Blocks(file.content[pos..]) ==> |b.payload| >= 4
      invariant ExtractBlocks(out, Blocks(file.content[pos..]), firstBlock) == Extract(file.content)
      decreases |file.content| - pos
    {
      ghost var c := file.content[pos..];
      var len, out' := ReadBlock(file, out, firstBlock);
      if len == 0 {
        break;
      }
      assert c[len + 2..] == file.content[pos + len + 2..];
      out := out';
      firstBlock := false;
      pos := pos + len + 2;
      file.Seek(pos);
    }
  }
}
