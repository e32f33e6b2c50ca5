/** Sixteen-bit words under exclusive or and shifts. */
module Xor16 {

  function Xor(x: bv16, y: bv16): bv16 { x ^ y }
  function Low(x: bv16): bool { x & 1 == 1 }
  function Shift(x: bv16): bv16 { x >> 1 }
  function HighByte(x: bv16): bv16 { x >> 8 }
  function LowByte(x: bv16): bv16 { x & 0xFF }
  function Wide(b: bv8): bv16 { b as bv16 }

  lemma LowXor(x: bv16, y: bv16)
    ensures Low(Xor(x, y)) == (Low(x) != Low(y))
  {
  }

  lemma ShiftXor(x: bv16, y: bv16)
    ensures Shift(Xor(x, y)) == Xor(Shift(x), Shift(y))
  {
  }

  lemma Commutes(x: bv16, y: bv16)
    ensures Xor(x, y) == Xor(y, x)
  {
  }

  lemma Associates(x: bv16, y: bv16, z: bv16)
    ensures Xor(Xor(x, y), z) == Xor(x, Xor(y, z))
  {
  }

  /** Adding the same word on both sides cancels. */
  lemma Cancels(p: bv16, x: bv16, y: bv16)
    ensures Xor(Xor(x, p), Xor(y, p)) == Xor(x, y)
  {
    Undoes(x, p);
    Undoes(y, p);
    Commutes(y, p);
    Associates(Xor(x, p), p, y);
    hide Xor;
  }

  /** Exchanging the inner two of four words. */
  lemma Exchanges(a: bv16, b: bv16, c: bv16, d: bv16)
    ensures Xor(Xor(a, b), Xor(c, d)) == Xor(Xor(a, c), Xor(b, d))
  {
    hide Xor;
    Associates(a, b, Xor(c, d));
    Associates(b, c, d);
    Commutes(b, c);
    Associates(c, b, d);
    Associates(a, c, Xor(b, d));
  }

  lemma XorTwice(x: bv16, y: bv16)
    ensures Xor(Xor(x, y), y) == x
  {
  }

  lemma ZeroXor(x: bv16)
    ensures Xor(x, x) == 0 && Xor(0, x) == x
  {
  }

  lemma NoDifference(x: bv16, y: bv16)
    ensures Xor(x, y) == 0 <==> x == y
  {
    hide Xor;
    XorTwice(x, y);
    ZeroXor(y);
  }

  lemma Undoes(x: bv16, y: bv16)
    ensures Xor(Xor(x, y), y) == x
    ensures Xor(x, y) == 0 <==> x == y
  {
    hide Xor;
    XorTwice(x, y);
    NoDifference(x, y);
  }

  /** A word is its shift and its lowest bit; bit 15 of a shifted word is clear. */
  lemma ShiftFacts(x: bv16, y: bv16)
    ensures Shift(x) == Shift(y) && Low(x) == Low(y) ==> x == y
    ensures Xor(Shift(x), 0xA001) != Shift(y)
    ensures Xor(Shift(x), 0xA001) == Xor(Shift(y), 0xA001) ==> Shift(x) == Shift(y)
  {
  }

  lemma ByteParts(x: bv16)
    ensures Xor(x & 0xFF00, LowByte(x)) == x
    ensures HighByte(x & 0xFF00) == HighByte(x)
  {
  }

  /** Eight shifts of a word without low byte drop no bit. */
  lemma EightShifts(h: bv16)
    requires h & 0xFF == 0
    ensures !Low(h) && !Low(Shift(h)) && !Low(Shift(Shift(h))) && !Low(Shift(Shift(Shift(h))))
    ensures var g := Shift(Shift(Shift(Shift(h))));
            !Low(g) && !Low(Shift(g)) && !Low(Shift(Shift(g))) && !Low(Shift(Shift(Shift(g))))
            && Shift(Shift(Shift(Shift(g)))) == HighByte(h)
  {
  }

  lemma HighPartHasNoLowByte(x: bv16)
    ensures (x & 0xFF00) & 0xFF == 0
  {
  }

  lemma WideFacts(a: bv8, b: bv8)
    ensures LowByte(Wide(a)) == Wide(a) && HighByte(Wide(a)) == 0
    ensures Wide(a) == Wide(b) ==> a == b
    ensures HighByte(Xor(Wide(a), Wide(b))) == 0
    ensures Wide(a ^ b) == Xor(Wide(a), Wide(b))
  {
  }

  lemma HighByteXor(x: bv16, y: bv16)
    ensures HighByte(Xor(x, y)) == Xor(HighByte(x), HighByte(y))
  {
  }

  lemma LowByteSmall(x: bv16)
    ensures LowByte(x) < 256
  {
  }

  lemma XorZero(x: bv16)
    ensures Xor(x, 0) == x && Xor(0, x) == x
  {
  }

  function RowOf(x: bv16): bv16 { x >> 3 }
  function ColumnOf(x: bv16): bv16 { x & 0x07 }

  lemma ColumnInRow(x: bv16)
    ensures ColumnOf(x) as int < 8 && ColumnOf(x) < 8
    ensures x < 256 ==> RowOf(x) < 32
  {
  }

  lemma IndexParts(x: bv16)
    ensures Xor(RowOf(x) << 3, ColumnOf(x)) == x
  {
  }

  lemma RowParts(row: bv16)
    requires row < 32
    ensures Xor((row & 0x18) << 3, (row & 0x07) << 3) == row << 3 && row & 0x07 < 8
    ensures row & 0x18 == 0 || row & 0x18 == 8 || row & 0x18 == 16 || row & 0x18 == 24
  {
  }
}

/** The CRC-16 of the firmware tools: a table of 256 entries, one look-up per byte, against
    the bit-serial reflected CRC with polynomial x^16 + x^15 + x^2 + 1. */
module Crc16 {
  import opened Xor16

  // ---------------------------------------------------------------------------
  // Bit-serial definition
  // ---------------------------------------------------------------------------

  /** One bit: shift right, and add the reflected polynomial if a one fell out. */
  function Bit(c: bv16): bv16 {
    if Low(c) then Xor(Shift(c), 0xA001) else Shift(c)
  }

  function Bits8(c: bv16): bv16 {
    Bit(Bit(Bit(Bit(Bit(Bit(Bit(Bit(c))))))))
  }

  /** A byte goes in at the low end and eight bits are worked off. */
  function SerialByte(crc: bv16, data: bv8): bv16 {
    Bits8(Xor(crc, Wide(data)))
  }

  function Serial(crc: bv16, buffer: seq<bv8>): bv16 {
    if buffer == [] then crc else SerialByte(Serial(crc, buffer[..|buffer| - 1]), buffer[|buffer| - 1])
  }

  // ---------------------------------------------------------------------------
  // The table
  // ---------------------------------------------------------------------------

  /** The table, in rows of eight. */
  function TableRow(row: bv16): (r: seq<bv16>)
    ensures |r| == 8
  {
    if row < 8 then Rows0(row) else if row < 16 then Rows1(row) else if row < 24 then Rows2(row) else Rows3(row)
  }

  function Rows0(row: bv16): (r: seq<bv16>)
    ensures |r| == 8
  {
    match row
    case 0 => [0x0000, 0xC0C1, 0xC181, 0x0140, 0xC301, 0x03C0, 0x0280, 0xC241]
    case 1 => [0xC601, 0x06C0, 0x0780, 0xC741, 0x0500, 0xC5C1, 0xC481, 0x0440]
    case 2 => [0xCC01, 0x0CC0, 0x0D80, 0xCD41, 0x0F00, 0xCFC1, 0xCE81, 0x0E40]
    case 3 => [0x0A00, 0xCAC1, 0xCB81, 0x0B40, 0xC901, 0x09C0, 0x0880, 0xC841]
    case 4 => [0xD801, 0x18C0, 0x1980, 0xD941, 0x1B00, 0xDBC1, 0xDA81, 0x1A40]
    case 5 => [0x1E00, 0xDEC1, 0xDF81, 0x1F40, 0xDD01, 0x1DC0, 0x1C80, 0xDC41]
    case 6 => [0x1400, 0xD4C1, 0xD581, 0x1540, 0xD701, 0x17C0, 0x1680, 0xD641]
    case _ => [0xD201, 0x12C0, 0x1380, 0xD341, 0x1100, 0xD1C1, 0xD081, 0x1040]
  }

  function Rows1(row: bv16): (r: seq<bv16>)
    ensures |r| == 8
  {
    match row
    case 8 => [0xF001, 0x30C0, 0x3180, 0xF141, 0x3300, 0xF3C1, 0xF281, 0x3240]
    case 9 => [0x3600, 0xF6C1, 0xF781, 0x3740, 0xF501, 0x35C0, 0x3480, 0xF441]
    case 10 => [0x3C00, 0xFCC1, 0xFD81, 0x3D40, 0xFF01, 0x3FC0, 0x3E80, 0xFE41]
    case 11 => [0xFA01, 0x3AC0, 0x3B80, 0xFB41, 0x3900, 0xF9C1, 0xF881, 0x3840]
    case 12 => [0x2800, 0xE8C1, 0xE981, 0x2940, 0xEB01, 0x2BC0, 0x2A80, 0xEA41]
    case 13 => [0xEE01, 0x2EC0, 0x2F80, 0xEF41, 0x2D00, 0xEDC1, 0xEC81, 0x2C40]
    case 14 => [0xE401, 0x24C0, 0x2580, 0xE541, 0x2700, 0xE7C1, 0xE681, 0x2640]
    case _ => [0x2200, 0xE2C1, 0xE381, 0x2340, 0xE101, 0x21C0, 0x2080, 0xE041]
  }

  function Rows2(row: bv16): (r: seq<bv16>)
    ensures |r| == 8
  {
    match row
    case 16 => [0xA001, 0x60C0, 0x6180, 0xA141, 0x6300, 0xA3C1, 0xA281, 0x6240]
    case 17 => [0x6600, 0xA6C1, 0xA781, 0x6740, 0xA501, 0x65C0, 0x6480, 0xA441]
    case 18 => [0x6C00, 0xACC1, 0xAD81, 0x6D40, 0xAF01, 0x6FC0, 0x6E80, 0xAE41]
    case 19 => [0xAA01, 0x6AC0, 0x6B80, 0xAB41, 0x6900, 0xA9C1, 0xA881, 0x6840]
    case 20 => [0x7800, 0xB8C1, 0xB981, 0x7940, 0xBB01, 0x7BC0, 0x7A80, 0xBA41]
    case 21 => [0xBE01, 0x7EC0, 0x7F80, 0xBF41, 0x7D00, 0xBDC1, 0xBC81, 0x7C40]
    case 22 => [0xB401, 0x74C0, 0x7580, 0xB541, 0x7700, 0xB7C1, 0xB681, 0x7640]
    case _ => [0x7200, 0xB2C1, 0xB381, 0x7340, 0xB101, 0x71C0, 0x7080, 0xB041]
  }

  function Rows3(row: bv16): (r: seq<bv16>)
    ensures |r| == 8
  {
    match row
    case 24 => [0x5000, 0x90C1, 0x9181, 0x5140, 0x9301, 0x53C0, 0x5280, 0x9241]
    case 25 => [0x9601, 0x56C0, 0x5780, 0x9741, 0x5500, 0x95C1, 0x9481, 0x5440]
    case 26 => [0x9C01, 0x5CC0, 0x5D80, 0x9D41, 0x5F00, 0x9FC1, 0x9E81, 0x5E40]
    case 27 => [0x5A00, 0x9AC1, 0x9B81, 0x5B40, 0x9901, 0x59C0, 0x5880, 0x9841]
    case 28 => [0x8801, 0x48C0, 0x4980, 0x8941, 0x4B00, 0x8BC1, 0x8A81, 0x4A40]
    case 29 => [0x4E00, 0x8EC1, 0x8F81, 0x4F40, 0x8D01, 0x4DC0, 0x4C80, 0x8C41]
    case 30 => [0x4400, 0x84C1, 0x8581, 0x4540, 0x8701, 0x47C0, 0x4680, 0x8641]
    case _ => [0x8201, 0x42C0, 0x4380, 0x8341, 0x4100, 0x81C1, 0x8081, 0x4040]
  }

  function TableEntry(x: bv16): bv16 {
    ColumnInRow(x);
    TableRow(RowOf(x))[ColumnOf(x) as int]
  }

  // The eight bit steps are linear, and so is the table: each row is the first one plus a
  // constant, and each eighth row is a constant apart from the first eight.

  /** A row plus a constant. */
  function Plus(c: bv16, r: seq<bv16>): seq<bv16>
    requires |r| == 8
  {
    [Xor(c, r[0]), Xor(c, r[1]), Xor(c, r[2]), Xor(c, r[3]), Xor(c, r[4]), Xor(c, r[5]), Xor(c, r[6]), Xor(c, r[7])]
  }

  lemma RowIsSum0(row: bv16)
    requires row < 8
    ensures TableRow(row) == Plus(TableRow(row)[0], TableRow(0))
  {
    if row == 0 { } else if row == 1 { } else if row == 2 { } else if row == 3 { }
    else if row == 4 { } else if row == 5 { } else if row == 6 { } else { assert row == 7; }
  }

  lemma RowIsSum1(row: bv16)
    requires 8 <= row < 16
    ensures TableRow(row) == Plus(TableRow(row)[0], TableRow(0))
  {
    if row == 8 { } else if row == 9 { } else if row == 10 { } else if row == 11 { }
    else if row == 12 { } else if row == 13 { } else if row == 14 { } else { assert row == 15; }
  }

  lemma RowIsSum2(row: bv16)
    requires 16 <= row < 24
    ensures TableRow(row) == Plus(TableRow(row)[0], TableRow(0))
  {
    if row == 16 { } else if row == 17 { } else if row == 18 { } else if row == 19 { }
    else if row == 20 { } else if row == 21 { } else if row == 22 { } else { assert row == 23; }
  }

  lemma RowIsSum3(row: bv16)
    requires 24 <= row < 32
    ensures TableRow(row) == Plus(TableRow(row)[0], TableRow(0))
  {
    if row == 24 { } else if row == 25 { } else if row == 26 { } else if row == 27 { }
    else if row == 28 { } else if row == 29 { } else if row == 30 { } else { assert row == 31; }
  }

  lemma RowIsSum(row: bv16)
    requires row < 32
    ensures TableRow(row) == Plus(TableRow(row)[0], TableRow(0))
  {
    hide TableRow, Plus;
    if row < 8 { RowIsSum0(row); } else if row < 16 { RowIsSum1(row); }
    else if row < 24 { RowIsSum2(row); } else { RowIsSum3(row); }
  }

  lemma RowStarts(row: bv16)
    requires row < 32
    ensures TableRow(row)[0] == Xor(TableRow(row & 0x18)[0], TableRow(row & 0x07)[0])
  {
    if row == 0 { } else if row == 1 { } else if row == 2 { } else if row == 3 { } else if row == 4 { } else if row == 5 { }
    else if row == 6 { } else if row == 7 { } else if row == 8 { } else if row == 9 { } else if row == 10 { } else if row == 11 { }
    else if row == 12 { } else if row == 13 { } else if row == 14 { } else if row == 15 { } else if row == 16 { } else if row == 17 { }
    else if row == 18 { } else if row == 19 { } else if row == 20 { } else if row == 21 { } else if row == 22 { } else if row == 23 { }
    else if row == 24 { } else if row == 25 { } else if row == 26 { } else if row == 27 { } else if row == 28 { } else if row == 29 { }
    else if row == 30 { } else { assert row == 31; }
  }

  lemma FirstRow(col: bv16)
    requires col < 8
    ensures TableRow(0)[col as int] == Bits8(col)
  {
    if col == 0 { } else if col == 1 { } else if col == 2 { } else if col == 3 { } else if col == 4 { } else if col == 5 { } else if col == 6 { } else { assert col == 7; }
  }

  lemma FirstRowStarts(row: bv16)
    requires row < 8
    ensures TableRow(row)[0] == Bits8(row << 3)
  {
    if row == 0 { } else if row == 1 { } else if row == 2 { } else if row == 3 { } else if row == 4 { } else if row == 5 { } else if row == 6 { } else { assert row == 7; }
  }

  lemma EighthRowStarts(row: bv16)
    requires row == 0 || row == 8 || row == 16 || row == 24
    ensures TableRow(row)[0] == Bits8(row << 3)
  {
    if row == 0 { } else if row == 8 { } else if row == 16 { } else { assert row == 24; }
  }

  lemma RowStartIsSerial(row: bv16)
    requires row < 32
    ensures TableRow(row)[0] == Bits8(row << 3)
  {
    RowParts(row);
    RowStarts(row);
    EighthRowStarts(row & 0x18);
    FirstRowStarts(row & 0x07);
    Bits8Linear((row & 0x18) << 3, (row & 0x07) << 3);
    hide TableRow, Bits8, Xor;
  }

  lemma PlusAt(c: bv16, r: seq<bv16>, k: nat)
    requires |r| == 8 && k < 8
    ensures Plus(c, r)[k] == Xor(c, r[k])
  {
  }

  /** Every entry of the table is what eight bit steps make of its index. */
  lemma TableIsSerial(x: bv16)
    requires x < 256
    ensures TableEntry(x) == Bits8(x)
  {
    ColumnInRow(x);
    IndexParts(x);
    var row, col := RowOf(x), ColumnOf(x);
    RowIsSum(row);
    RowStartIsSerial(row);
    FirstRow(col);
    PlusAt(TableRow(row)[0], TableRow(0), col as int);
    Bits8Linear(row << 3, col);
    hide TableRow, Bits8, Xor, RowOf, ColumnOf, Plus;
  }

  // ---------------------------------------------------------------------------
  // One byte
  // ---------------------------------------------------------------------------

  lemma BitLinear(x: bv16, y: bv16)
    ensures Bit(Xor(x, y)) == Xor(Bit(x), Bit(y))
  {
    LowXor(x, y);
    ShiftXor(x, y);
    var p, q := Shift(x), Shift(y);
    Cancels(0xA001, p, q);
    Associates(p, q, 0xA001);
    Associates(p, 0xA001, q);
    Commutes(q, 0xA001);
    hide Xor, Low, Shift;
  }

  lemma BitInjective(x: bv16, y: bv16)
    requires Bit(x) == Bit(y)
    ensures x == y
  {
    ShiftFacts(x, y);
    ShiftFacts(y, x);
    hide Xor, Low, Shift;
  }

  lemma Bits8Linear(x: bv16, y: bv16)
    ensures Bits8(Xor(x, y)) == Xor(Bits8(x), Bits8(y))
  {
    hide Bit, Xor;
    var a, b := Bit(x), Bit(y);
    var c, d := Bit(a), Bit(b);
    var e, f := Bit(c), Bit(d);
    var g, h := Bit(e), Bit(f);
    var i, j := Bit(g), Bit(h);
    var k, l := Bit(i), Bit(j);
    var m, n := Bit(k), Bit(l);
    BitLinear(x, y);
    BitLinear(a, b);
    BitLinear(c, d);
    BitLinear(e, f);
    BitLinear(g, h);
    BitLinear(i, j);
    BitLinear(k, l);
    BitLinear(m, n);
  }

  lemma Bits8Injective(x: bv16, y: bv16)
    requires Bits8(x) == Bits8(y)
    ensures x == y
  {
    hide Bit;
    var a, b := Bit(x), Bit(y);
    var c, d := Bit(a), Bit(b);
    var e, f := Bit(c), Bit(d);
    var g, h := Bit(e), Bit(f);
    var i, j := Bit(g), Bit(h);
    var k, l := Bit(i), Bit(j);
    var m, n := Bit(k), Bit(l);
    BitInjective(m, n);
    BitInjective(k, l);
    BitInjective(i, j);
    BitInjective(g, h);
    BitInjective(e, f);
    BitInjective(c, d);
    BitInjective(a, b);
    BitInjective(x, y);
  }

  /** A word without low byte is only shifted. */
  lemma Bits8OfHigh(h: bv16)
    requires h & 0xFF == 0
    ensures Bits8(h) == HighByte(h)
  {
    EightShifts(h);
    hide Xor, Low, Shift, HighByte;
  }

  /** Eight bit steps of a word: its high byte moves down, its low byte decides what is
      added. */
  lemma Bits8Split(x: bv16)
    ensures Bits8(x) == Xor(HighByte(x), Bits8(LowByte(x)))
  {
    ByteParts(x);
    HighPartHasNoLowByte(x);
    Bits8OfHigh(x & 0xFF00);
    Bits8Linear(x & 0xFF00, LowByte(x));
    hide Bits8, Xor, HighByte;
  }

  /** `crc16_byte`: one look-up. */
  function TableByte(crc: bv16, data: bv8): bv16 {
    Xor(HighByte(crc), TableEntry(LowByte(Xor(crc, Wide(data)))))
  }

  /** The look-up does what eight bit steps do. */
  lemma TableByteIsSerial(crc: bv16, data: bv8)
    ensures TableByte(crc, data) == SerialByte(crc, data)
  {
    var x := Xor(crc, Wide(data));
    LowByteSmall(x);
    TableIsSerial(LowByte(x));
    Bits8Split(x);
    HighByteXor(crc, Wide(data));
    WideFacts(data, data);
    XorZero(HighByte(crc));
    hide Bits8, Xor, HighByte, LowByte, TableEntry, Wide;
  }

  // ---------------------------------------------------------------------------
  // Whole buffers
  // ---------------------------------------------------------------------------

  /** `crc16`: one look-up for every byte of the buffer. */
  method ComputeCrc16(start: bv16, buffer: seq<bv8>) returns (crc: bv16)
    ensures crc == Serial(start, buffer)
  {
    hide SerialByte, TableByte;
    crc := start;
    assert buffer[..0] == [];
    for i := 0 to |buffer|
      invariant crc == Serial(start, buffer[..i])
    {
      TableByteIsSerial(crc, buffer[i]);
      assert buffer[..i + 1][..i] == buffer[..i];
      crc := TableByte(crc, buffer[i]);
    }
    assert buffer[..|buffer|] == buffer;
  }

  /** A buffer may be checked in two parts. */
  lemma {:induction false} Composes(crc: bv16, a: seq<bv8>, b: seq<bv8>)
    ensures Serial(crc, a + b) == Serial(Serial(crc, a), b)
    decreases |b|
  {
    hide SerialByte;
    if b == [] {
      assert a + b == a;
    } else {
      var n := |b| - 1;
      assert (a + b)[..|a + b| - 1] == a + b[..n];
      Composes(crc, a, b[..n]);
    }
  }

  /** Bytewise exclusive or. */
  function XorBytes(a: seq<bv8>, b: seq<bv8>): (r: seq<bv8>)
    requires |a| == |b|
    ensures |r| == |a|
  {
    seq(|a|, i requires 0 <= i < |a| => a[i] ^ b[i])
  }

  lemma SerialByteLinear(c: bv16, d: bv16, x: bv8, y: bv8)
    ensures SerialByte(Xor(c, d), x ^ y) == Xor(SerialByte(c, x), SerialByte(d, y))
  {
    WideFacts(x, y);
    Exchanges(c, d, Wide(x), Wide(y));
    Bits8Linear(Xor(c, Wide(x)), Xor(d, Wide(y)));
    hide Bits8, Xor, Wide;
  }

  /** The check is linear: start values and buffers may be added up first. */
  lemma {:induction false} Linear(c: bv16, d: bv16, a: seq<bv8>, b: seq<bv8>)
    requires |a| == |b|
    ensures Serial(Xor(c, d), XorBytes(a, b)) == Xor(Serial(c, a), Serial(d, b))
    decreases |a|
  {
    hide SerialByte, Xor;
    if |a| > 0 {
      var n := |a| - 1;
      Linear(c, d, a[..n], b[..n]);
      assert XorBytes(a, b)[..n] == XorBytes(a[..n], b[..n]);
      SerialByteLinear(Serial(c, a[..n]), Serial(d, b[..n]), a[n], b[n]);
    }
  }

  lemma SerialByteInjective(c: bv16, d: bv16, x: bv8)
    requires SerialByte(c, x) == SerialByte(d, x)
    ensures c == d
  {
    Bits8Injective(Xor(c, Wide(x)), Xor(d, Wide(x)));
    Undoes(c, Wide(x));
    Undoes(d, Wide(x));
    hide Bits8, Xor, Wide;
  }

  /** A difference never goes away under equal bytes. */
  lemma {:induction false} DifferenceStays(c: bv16, d: bv16, buffer: seq<bv8>)
    requires c != d
    ensures Serial(c, buffer) != Serial(d, buffer)
    decreases |buffer|
  {
    hide SerialByte;
    if buffer != [] {
      var n := |buffer| - 1;
      DifferenceStays(c, d, buffer[..n]);
      if Serial(c, buffer) == Serial(d, buffer) {
        SerialByteInjective(Serial(c, buffer[..n]), Serial(d, buffer[..n]), buffer[n]);
      }
    }
  }

  /** The eight bit steps of a nonzero byte reach the high byte, where the next byte of
      the buffer cannot make up for them. */
  lemma HighByteReached(x: bv16)
    requires 0 < x < 256
    ensures HighByte(Bits8(x)) != 0
  {
  }

  lemma WideNonzero(x: bv8, u: bv8)
    requires x != u
    ensures 0 < Wide(x ^ u) < 256
  {
  }

  lemma SerialByteSeparates(d: bv16, y: bv8, v: bv8)
    requires y != v
    ensures SerialByte(d, y) != SerialByte(d, v)
  {
    if SerialByte(d, y) == SerialByte(d, v) {
      Bits8Injective(Xor(d, Wide(y)), Xor(d, Wide(v)));
      Commutes(d, Wide(y));
      Commutes(d, Wide(v));
      Undoes(Wide(y), d);
      Undoes(Wide(v), d);
      WideFacts(y, v);
      hide Bits8, Xor, Wide;
      assert false;
    }
  }

  /** From one start value, two bytes are told apart from any other two. */
  lemma TwoBytes(c: bv16, x: bv8, y: bv8, u: bv8, v: bv8)
    requires x != u || y != v
    ensures SerialByte(SerialByte(c, x), y) != SerialByte(SerialByte(c, u), v)
  {
    if x == u {
      SerialByteSeparates(SerialByte(c, x), y, v);
    } else {
      var d, e := SerialByte(c, x), SerialByte(c, u);
      FirstByteReaches(c, x, u);
      if SerialByte(d, y) == SerialByte(e, v) {
        Bits8Injective(Xor(d, Wide(y)), Xor(e, Wide(v)));
        MovedOver(d, Wide(y), e, Wide(v));
        WideFacts(y, v);
        hide SerialByte, Bits8, Xor, Wide, HighByte;
        assert false;
      }
    }
  }

  lemma FirstByteReaches(c: bv16, x: bv8, u: bv8)
    requires x != u
    ensures HighByte(Xor(SerialByte(c, x), SerialByte(c, u))) != 0
  {
    SerialByteLinear(c, c, x, u);
    Undoes(c, c);
    XorZero(Wide(x ^ u));
    WideNonzero(x, u);
    HighByteReached(Wide(x ^ u));
    hide Bits8, Xor, Wide, HighByte;
  }

  lemma MovedOver(d: bv16, y: bv16, e: bv16, v: bv16)
    requires Xor(d, y) == Xor(e, v)
    ensures Xor(d, e) == Xor(y, v)
  {
    Exchanges(d, e, y, v);
    Undoes(Xor(d, y), Xor(e, v));
    Undoes(Xor(d, e), Xor(y, v));
    hide Xor;
  }

  /** Two buffers of one length that differ only within two neighbouring bytes never have
      the same check, whatever the start value. */
  lemma BurstDetected(c: bv16, a: seq<bv8>, b: seq<bv8>, i: nat)
    requires |a| == |b| && i + 2 <= |a| && a != b
    requires a[..i] == b[..i] && a[i + 2..] == b[i + 2..]
    ensures Serial(c, a) != Serial(c, b)
  {
    hide SerialByte;
    var p, s := a[..i], a[i + 2..];
    assert a == p + [a[i], a[i + 1]] + s && b == p + [b[i], b[i + 1]] + s;
    Composes(c, p + [a[i], a[i + 1]], s);
    Composes(c, p + [b[i], b[i + 1]], s);
    Composes(c, p, [a[i], a[i + 1]]);
    Composes(c, p, [b[i], b[i + 1]]);
    SerialOfTwo(Serial(c, p), a[i], a[i + 1]);
    SerialOfTwo(Serial(c, p), b[i], b[i + 1]);
    TwoBytes(Serial(c, p), a[i], a[i + 1], b[i], b[i + 1]);
    DifferenceStays(Serial(c, p + [a[i], a[i + 1]]), Serial(c, p + [b[i], b[i + 1]]), s);
  }

  lemma SerialOfTwo(c: bv16, x: bv8, y: bv8)
    ensures Serial(c, [x, y]) == SerialByte(SerialByte(c, x), y)
  {
    hide SerialByte;
    assert [x, y][..1] == [x] && [x][..0] == [];
    assert Serial(c, [x]) == SerialByte(c, x);
  }

  // ---------------------------------------------------------------------------
  // A known check
  // ---------------------------------------------------------------------------

  /** The digits one to nine in ASCII. */
  function Nine(): seq<bv8> {
    [0x31, 0x32, 0x33, 0x34, 0x35, 0x36, 0x37, 0x38, 0x39]
  }

  lemma NineSteps()
    ensures SerialByte(0x0000, 0x31) == 0xD4C1
    ensures SerialByte(0xD4C1, 0x32) == 0x4594
    ensures SerialByte(0x4594, 0x33) == 0xBA04
    ensures SerialByte(0xBA04, 0x34) == 0x14BA
    ensures SerialByte(0x14BA, 0x35) == 0xA455
    ensures SerialByte(0xA455, 0x36) == 0x29E4
    ensures SerialByte(0x29E4, 0x37) == 0x9D68
    ensures SerialByte(0x9D68, 0x38) == 0x3C9D
    ensures SerialByte(0x3C9D, 0x39) == 0xBB3D
  {
  }

  lemma SerialNext(crc: bv16, buffer: seq<bv8>, k: nat)
    requires k < |buffer|
    ensures Serial(crc, buffer[..k + 1]) == SerialByte(Serial(crc, buffer[..k]), buffer[k])
  {
    assert buffer[..k + 1][..k] == buffer[..k];
  }

  /** The check of the nine digits is 0xBB3D. */
  lemma KnownAnswer()
    ensures Serial(0, Nine()) == 0xBB3D
  {
    hide SerialByte;
    NineSteps();
    var s := Nine();
    assert Serial(0, s[..0]) == 0;
    hide Serial;
    SerialNext(0, s, 0);
    SerialNext(0, s, 1);
    SerialNext(0, s, 2);
    SerialNext(0, s, 3);
    SerialNext(0, s, 4);
    SerialNext(0, s, 5);
    SerialNext(0, s, 6);
    SerialNext(0, s, 7);
    SerialNext(0, s, 8);
    assert s[..9] == s;
  }
}
