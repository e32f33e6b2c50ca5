/** Thirty-two-bit words under exclusive or and shifts. */
module Xor32 {

  function Xor(x: bv32, y: bv32): bv32 { x ^ y }
  function Low(x: bv32): bool { x & 1 == 1 }
  function Shift(x: bv32): bv32 { x >> 1 }
  function Down(x: bv32): bv32 { x >> 8 }
  function Up(x: bv32): bv32 { x << 8 }
  function LowByte(x: bv32): bv32 { x & 0xFF }
  function Wide(b: bv8): bv32 { b as bv32 }
  function Complement(x: bv32): bv32 { x ^ 0xFFFF_FFFF }

  lemma LowXor(x: bv32, y: bv32)
    ensures Low(Xor(x, y)) == (Low(x) != Low(y))
  {
  }

  lemma ShiftXor(x: bv32, y: bv32)
    ensures Shift(Xor(x, y)) == Xor(Shift(x), Shift(y))
  {
  }

  lemma Commutes(x: bv32, y: bv32)
    ensures Xor(x, y) == Xor(y, x)
  {
  }

  lemma Associates(x: bv32, y: bv32, z: bv32)
    ensures Xor(Xor(x, y), z) == Xor(x, Xor(y, z))
  {
  }

  lemma Undoes(x: bv32, y: bv32)
    ensures Xor(Xor(x, y), y) == x
  {
  }

  /** Adding the same word on both sides cancels. */
  lemma Cancels(p: bv32, x: bv32, y: bv32)
    ensures Xor(Xor(x, p), Xor(y, p)) == Xor(x, y)
  {
    Commutes(y, p);
    Associates(Xor(x, p), p, y);
    Undoes(x, p);
    hide Xor;
  }

  lemma ComplementTwice(x: bv32)
    ensures Complement(Complement(x)) == x
  {
  }

  /** A word is its shift and its lowest bit; bit 31 of a shifted word is clear. */
  lemma ShiftFacts(x: bv32, y: bv32)
    ensures Shift(x) == Shift(y) && Low(x) == Low(y) ==> x == y
    ensures Xor(Shift(x), 0xEDB88320) != Shift(y)
    ensures Xor(Shift(x), 0xEDB88320) == Xor(Shift(y), 0xEDB88320) ==> Shift(x) == Shift(y)
  {
  }

  lemma NoLow8(h: bv32)
    requires h & 0xFF == 0
    ensures !Low(h) && Shift(h) & 0x7F == 0
  {
  }

  lemma NoLow7(h: bv32)
    requires h & 0x7F == 0
    ensures !Low(h) && Shift(h) & 0x3F == 0
  {
  }

  lemma NoLow6(h: bv32)
    requires h & 0x3F == 0
    ensures !Low(h) && Shift(h) & 0x1F == 0
  {
  }

  lemma NoLow5(h: bv32)
    requires h & 0x1F == 0
    ensures !Low(h) && Shift(h) & 0x0F == 0
  {
  }

  lemma NoLow4(h: bv32)
    requires h & 0x0F == 0
    ensures !Low(h) && Shift(h) & 0x07 == 0
  {
  }

  lemma NoLow3(h: bv32)
    requires h & 0x07 == 0
    ensures !Low(h) && Shift(h) & 0x03 == 0
  {
  }

  lemma NoLow2(h: bv32)
    requires h & 0x03 == 0
    ensures !Low(h) && Shift(h) & 0x01 == 0
  {
  }

  lemma NoLow1(h: bv32)
    requires h & 0x01 == 0
    ensures !Low(h)
  {
  }

  lemma ShiftsAreDown(h: bv32)
    ensures Shift(Shift(Shift(Shift(Shift(Shift(Shift(Shift(h)))))))) == Down(h)
  {
  }

  /** Eight shifts of a word without low byte drop no bit. */
  lemma EightShifts(h: bv32)
    requires LowByte(h) == 0
    ensures !Low(h) && !Low(Shift(h)) && !Low(Shift(Shift(h))) && !Low(Shift(Shift(Shift(h))))
    ensures var g := Shift(Shift(Shift(Shift(h))));
            !Low(g) && !Low(Shift(g)) && !Low(Shift(Shift(g))) && !Low(Shift(Shift(Shift(g))))
            && Shift(Shift(Shift(Shift(g)))) == Down(h)
  {
    ShiftsAreDown(h);
    assert h & 0xFF == 0;
    hide Low, Shift, Down;
    NoLow8(h);
    NoLow7(Shift(h));
    NoLow6(Shift(Shift(h)));
    NoLow5(Shift(Shift(Shift(h))));
    var g := Shift(Shift(Shift(Shift(h))));
    NoLow4(g);
    NoLow3(Shift(g));
    NoLow2(Shift(Shift(g)));
    NoLow1(Shift(Shift(Shift(g))));
  }

  lemma ByteParts(x: bv32)
    ensures Xor(Up(Down(x)), LowByte(x)) == x
  {
  }

  lemma UpHasNoLow(x: bv32)
    ensures LowByte(Up(x)) == 0
  {
  }

  lemma DownOfUp(x: bv32)
    requires x < 0x100_0000
    ensures Down(Up(x)) == x
  {
  }

  lemma DownSmall(x: bv32)
    ensures Down(x) < 0x100_0000
  {
  }

  lemma WideDown(x: bv32, b: bv8)
    ensures Down(Xor(x, Wide(b))) == Down(x)
  {
  }

  lemma LowByteSmall(x: bv32)
    ensures LowByte(x) < 0x100
  {
  }

  function RowOf(x: bv32): bv32 { x >> 3 }
  function ColumnOf(x: bv32): bv32 { x & 0x07 }

  lemma ColumnInRow(x: bv32)
    ensures ColumnOf(x) as int < 8 && ColumnOf(x) < 8
    ensures x < 256 ==> RowOf(x) < 32
  {
  }

  lemma IndexParts(x: bv32)
    ensures Xor(RowOf(x) << 3, ColumnOf(x)) == x
  {
  }

  lemma RowParts(row: bv32)
    requires row < 32
    ensures Xor((row & 0x18) << 3, (row & 0x07) << 3) == row << 3 && row & 0x07 < 8
    ensures row & 0x18 == 0 || row & 0x18 == 8 || row & 0x18 == 16 || row & 0x18 == 24
  {
  }

  /** Four bytes as a word, the first at the low end. */
  function Word4(a: bv8, b: bv8, c: bv8, d: bv8): bv32 {
    Xor(Wide(a), Up(Xor(Wide(b), Up(Xor(Wide(c), Up(Wide(d)))))))
  }

  lemma Word4Injective(a: bv8, b: bv8, c: bv8, d: bv8, p: bv8, q: bv8, r: bv8, s: bv8)
    requires Word4(a, b, c, d) == Word4(p, q, r, s)
    ensures a == p && b == q && c == r && d == s
  {
  }
}

/** The CRC-32 of the update tools: a table of 256 entries, one look-up per byte, between two
    complements, against the bit-serial reflected CRC with polynomial 0x04C11DB7. */
module Crc32 {
  import opened Xor32

  // ---------------------------------------------------------------------------
  // Bit-serial definition
  // ---------------------------------------------------------------------------

  /** One bit: shift right, and add the reflected polynomial if a one fell out. */
  function Bit(c: bv32): bv32 {
    if Low(c) then Xor(Shift(c), 0xEDB88320) else Shift(c)
  }

  function Bits8(c: bv32): bv32 {
    Bit(Bit(Bit(Bit(Bit(Bit(Bit(Bit(c))))))))
  }

  /** A byte goes in at the low end and eight bits are worked off. */
  function SerialByte(crc: bv32, data: bv8): bv32 {
    Bits8(Xor(crc, Wide(data)))
  }

  function Serial(crc: bv32, buf: seq<bv8>): bv32
    decreases |buf|
  {
    if buf == [] then crc else SerialByte(Serial(crc, buf[..|buf| - 1]), buf[|buf| - 1])
  }

  /** The check value: complemented before and after. */
  function Crc(crc: bv32, buf: seq<bv8>): bv32 {
    Complement(Serial(Complement(crc), buf))
  }

  // ---------------------------------------------------------------------------
  // The table
  // ---------------------------------------------------------------------------

  /** The table, in rows of eight. */
  function TableRow(row: bv32): (r: seq<bv32>)
    ensures |r| == 8
  {
    if row < 8 then Rows0(row) else if row < 16 then Rows1(row) else if row < 24 then Rows2(row) else Rows3(row)
  }

  function Rows0(row: bv32): (r: seq<bv32>)
    ensures |r| == 8
  {
    match row
    case 0 =>
      [0x00000000, 0x77073096, 0xEE0E612C, 0x990951BA, 0x076DC419, 0x706AF48F, 0xE963A535, 0x9E6495A3]
    case 1 =>
      [0x0EDB8832, 0x79DCB8A4, 0xE0D5E91E, 0x97D2D988, 0x09B64C2B, 0x7EB17CBD, 0xE7B82D07, 0x90BF1D91]
    case 2 =>
      [0x1DB71064, 0x6AB020F2, 0xF3B97148, 0x84BE41DE, 0x1ADAD47D, 0x6DDDE4EB, 0xF4D4B551, 0x83D385C7]
    case 3 =>
      [0x136C9856, 0x646BA8C0, 0xFD62F97A, 0x8A65C9EC, 0x14015C4F, 0x63066CD9, 0xFA0F3D63, 0x8D080DF5]
    case 4 =>
      [0x3B6E20C8, 0x4C69105E, 0xD56041E4, 0xA2677172, 0x3C03E4D1, 0x4B04D447, 0xD20D85FD, 0xA50AB56B]
    case 5 =>
      [0x35B5A8FA, 0x42B2986C, 0xDBBBC9D6, 0xACBCF940, 0x32D86CE3, 0x45DF5C75, 0xDCD60DCF, 0xABD13D59]
    case 6 =>
      [0x26D930AC, 0x51DE003A, 0xC8D75180, 0xBFD06116, 0x21B4F4B5, 0x56B3C423, 0xCFBA9599, 0xB8BDA50F]
    case _ =>
      [0x2802B89E, 0x5F058808, 0xC60CD9B2, 0xB10BE924, 0x2F6F7C87, 0x58684C11, 0xC1611DAB, 0xB6662D3D]
  }

  function Rows1(row: bv32): (r: seq<bv32>)
    ensures |r| == 8
  {
    match row
    case 8 =>
      [0x76DC4190, 0x01DB7106, 0x98D220BC, 0xEFD5102A, 0x71B18589, 0x06B6B51F, 0x9FBFE4A5, 0xE8B8D433]
    case 9 =>
      [0x7807C9A2, 0x0F00F934, 0x9609A88E, 0xE10E9818, 0x7F6A0DBB, 0x086D3D2D, 0x91646C97, 0xE6635C01]
    case 10 =>
      [0x6B6B51F4, 0x1C6C6162, 0x856530D8, 0xF262004E, 0x6C0695ED, 0x1B01A57B, 0x8208F4C1, 0xF50FC457]
    case 11 =>
      [0x65B0D9C6, 0x12B7E950, 0x8BBEB8EA, 0xFCB9887C, 0x62DD1DDF, 0x15DA2D49, 0x8CD37CF3, 0xFBD44C65]
    case 12 =>
      [0x4DB26158, 0x3AB551CE, 0xA3BC0074, 0xD4BB30E2, 0x4ADFA541, 0x3DD895D7, 0xA4D1C46D, 0xD3D6F4FB]
    case 13 =>
      [0x4369E96A, 0x346ED9FC, 0xAD678846, 0xDA60B8D0, 0x44042D73, 0x33031DE5, 0xAA0A4C5F, 0xDD0D7CC9]
    case 14 =>
      [0x5005713C, 0x270241AA, 0xBE0B1010, 0xC90C2086, 0x5768B525, 0x206F85B3, 0xB966D409, 0xCE61E49F]
    case _ =>
      [0x5EDEF90E, 0x29D9C998, 0xB0D09822, 0xC7D7A8B4, 0x59B33D17, 0x2EB40D81, 0xB7BD5C3B, 0xC0BA6CAD]
  }

  function Rows2(row: bv32): (r: seq<bv32>)
    ensures |r| == 8
  {
    match row
    case 16 =>
      [0xEDB88320, 0x9ABFB3B6, 0x03B6E20C, 0x74B1D29A, 0xEAD54739, 0x9DD277AF, 0x04DB2615, 0x73DC1683]
    case 17 =>
      [0xE3630B12, 0x94643B84, 0x0D6D6A3E, 0x7A6A5AA8, 0xE40ECF0B, 0x9309FF9D, 0x0A00AE27, 0x7D079EB1]
    case 18 =>
      [0xF00F9344, 0x8708A3D2, 0x1E01F268, 0x6906C2FE, 0xF762575D, 0x806567CB, 0x196C3671, 0x6E6B06E7]
    case 19 =>
      [0xFED41B76, 0x89D32BE0, 0x10DA7A5A, 0x67DD4ACC, 0xF9B9DF6F, 0x8EBEEFF9, 0x17B7BE43, 0x60B08ED5]
    case 20 =>
      [0xD6D6A3E8, 0xA1D1937E, 0x38D8C2C4, 0x4FDFF252, 0xD1BB67F1, 0xA6BC5767, 0x3FB506DD, 0x48B2364B]
    case 21 =>
      [0xD80D2BDA, 0xAF0A1B4C, 0x36034AF6, 0x41047A60, 0xDF60EFC3, 0xA867DF55, 0x316E8EEF, 0x4669BE79]
    case 22 =>
      [0xCB61B38C, 0xBC66831A, 0x256FD2A0, 0x5268E236, 0xCC0C7795, 0xBB0B4703, 0x220216B9, 0x5505262F]
    case _ =>
      [0xC5BA3BBE, 0xB2BD0B28, 0x2BB45A92, 0x5CB36A04, 0xC2D7FFA7, 0xB5D0CF31, 0x2CD99E8B, 0x5BDEAE1D]
  }

  function Rows3(row: bv32): (r: seq<bv32>)
    ensures |r| == 8
  {
    match row
    case 24 =>
      [0x9B64C2B0, 0xEC63F226, 0x756AA39C, 0x026D930A, 0x9C0906A9, 0xEB0E363F, 0x72076785, 0x05005713]
    case 25 =>
      [0x95BF4A82, 0xE2B87A14, 0x7BB12BAE, 0x0CB61B38, 0x92D28E9B, 0xE5D5BE0D, 0x7CDCEFB7, 0x0BDBDF21]
    case 26 =>
      [0x86D3D2D4, 0xF1D4E242, 0x68DDB3F8, 0x1FDA836E, 0x81BE16CD, 0xF6B9265B, 0x6FB077E1, 0x18B74777]
    case 27 =>
      [0x88085AE6, 0xFF0F6A70, 0x66063BCA, 0x11010B5C, 0x8F659EFF, 0xF862AE69, 0x616BFFD3, 0x166CCF45]
    case 28 =>
      [0xA00AE278, 0xD70DD2EE, 0x4E048354, 0x3903B3C2, 0xA7672661, 0xD06016F7, 0x4969474D, 0x3E6E77DB]
    case 29 =>
      [0xAED16A4A, 0xD9D65ADC, 0x40DF0B66, 0x37D83BF0, 0xA9BCAE53, 0xDEBB9EC5, 0x47B2CF7F, 0x30B5FFE9]
    case 30 =>
      [0xBDBDF21C, 0xCABAC28A, 0x53B39330, 0x24B4A3A6, 0xBAD03605, 0xCDD70693, 0x54DE5729, 0x23D967BF]
    case _ =>
      [0xB3667A2E, 0xC4614AB8, 0x5D681B02, 0x2A6F2B94, 0xB40BBE37, 0xC30C8EA1, 0x5A05DF1B, 0x2D02EF8D]
  }

  function TableEntry(x: bv32): bv32 {
    ColumnInRow(x);
    TableRow(RowOf(x))[ColumnOf(x) as int]
  }

  // The eight bit steps are linear, and so is the table: each row is the first one plus a
  // constant, and each eighth row is a constant apart from the first eight.

  /** A row plus a constant. */
  function Plus(c: bv32, r: seq<bv32>): seq<bv32>
    requires |r| == 8
  {
    [Xor(c, r[0]), Xor(c, r[1]), Xor(c, r[2]), Xor(c, r[3]), Xor(c, r[4]), Xor(c, r[5]), Xor(c, r[6]), Xor(c, r[7])]
  }

  lemma RowIsSum0(row: bv32)
    requires row < 8
    ensures TableRow(row) == Plus(TableRow(row)[0], TableRow(0))
  {
    if row == 0 { } else if row == 1 { } else if row == 2 { } else if row == 3 { }
    else if row == 4 { } else if row == 5 { } else if row == 6 { } else { assert row == 7; }
  }

  lemma RowIsSum1(row: bv32)
    requires 8 <= row < 16
    ensures TableRow(row) == Plus(TableRow(row)[0], TableRow(0))
  {
    if row == 8 { } else if row == 9 { } else if row == 10 { } else if row == 11 { }
    else if row == 12 { } else if row == 13 { } else if row == 14 { } else { assert row == 15; }
  }

  lemma RowIsSum2(row: bv32)
    requires 16 <= row < 24
    ensures TableRow(row) == Plus(TableRow(row)[0], TableRow(0))
  {
    if row == 16 { } else if row == 17 { } else if row == 18 { } else if row == 19 { }
    else if row == 20 { } else if row == 21 { } else if row == 22 { } else { assert row == 23; }
  }

  lemma RowIsSum3(row: bv32)
    requires 24 <= row < 32
    ensures TableRow(row) == Plus(TableRow(row)[0], TableRow(0))
  {
    if row == 24 { } else if row == 25 { } else if row == 26 { } else if row == 27 { }
    else if row == 28 { } else if row == 29 { } else if row == 30 { } else { assert row == 31; }
  }

  lemma RowIsSum(row: bv32)
    requires row < 32
    ensures TableRow(row) == Plus(TableRow(row)[0], TableRow(0))
  {
    hide TableRow, Plus;
    if row < 8 { RowIsSum0(row); } else if row < 16 { RowIsSum1(row); }
    else if row < 24 { RowIsSum2(row); } else { RowIsSum3(row); }
  }

  lemma RowStarts(row: bv32)
    requires row < 32
    ensures TableRow(row)[0] == Xor(TableRow(row & 0x18)[0], TableRow(row & 0x07)[0])
  {
    if row == 0 { } else if row == 1 { } else if row == 2 { } else if row == 3 { } else if row == 4 { } else if row == 5 { }
    else if row == 6 { } else if row == 7 { } else if row == 8 { } else if row == 9 { } else if row == 10 { } else if row == 11 { }
    else if row == 12 { } else if row == 13 { } else if row == 14 { } else if row == 15 { } else if row == 16 { } else if row == 17 { }
    else if row == 18 { } else if row == 19 { } else if row == 20 { } else if row == 21 { } else if row == 22 { } else if row == 23 { }
    else if row == 24 { } else if row == 25 { } else if row == 26 { } else if row == 27 { } else if row == 28 { } else if row == 29 { }
    else if row == 30 { } else { assert row == 31; }
  }

  lemma FirstRow(col: bv32)
    requires col < 8
    ensures TableRow(0)[col as int] == Bits8(col)
  {
    if col == 0 { } else if col == 1 { } else if col == 2 { } else if col == 3 { } else if col == 4 { } else if col == 5 { } else if col == 6 { } else { assert col == 7; }
  }

  lemma FirstRowStarts(row: bv32)
    requires row < 8
    ensures TableRow(row)[0] == Bits8(row << 3)
  {
    if row == 0 { } else if row == 1 { } else if row == 2 { } else if row == 3 { } else if row == 4 { } else if row == 5 { } else if row == 6 { } else { assert row == 7; }
  }

  lemma EighthRowStarts(row: bv32)
    requires row == 0 || row == 8 || row == 16 || row == 24
    ensures TableRow(row)[0] == Bits8(row << 3)
  {
    if row == 0 { } else if row == 8 { } else if row == 16 { } else { assert row == 24; }
  }

  lemma RowStartIsSerial(row: bv32)
    requires row < 32
    ensures TableRow(row)[0] == Bits8(row << 3)
  {
    RowParts(row);
    RowStarts(row);
    EighthRowStarts(row & 0x18);
    FirstRowStarts(row & 0x07);
    Bits8Linear((row & 0x18) << 3, (row & 0x07) << 3);
    hide TableRow, Bits8, Xor;
  }

  lemma PlusAt(c: bv32, r: seq<bv32>, k: nat)
    requires |r| == 8 && k < 8
    ensures Plus(c, r)[k] == Xor(c, r[k])
  {
  }

  /** Every entry of the table is what eight bit steps make of its index. */
  lemma TableIsSerial(x: bv32)
    requires x < 256
    ensures TableEntry(x) == Bits8(x)
  {
    ColumnInRow(x);
    IndexParts(x);
    var row, col := RowOf(x), ColumnOf(x);
    RowIsSum(row);
    RowStartIsSerial(row);
    FirstRow(col);
    PlusAt(TableRow(row)[0], TableRow(0), col as int);
    Bits8Linear(row << 3, col);
    hide TableRow, Bits8, Xor, RowOf, ColumnOf, Plus;
  }

  // ---------------------------------------------------------------------------
  // One byte
  // ---------------------------------------------------------------------------

  lemma BitLinear(x: bv32, y: bv32)
    ensures Bit(Xor(x, y)) == Xor(Bit(x), Bit(y))
  {
    LowXor(x, y);
    ShiftXor(x, y);
    var p, q := Shift(x), Shift(y);
    Cancels(0xEDB88320, p, q);
    Associates(p, q, 0xEDB88320);
    Associates(p, 0xEDB88320, q);
    Commutes(q, 0xEDB88320);
    hide Xor, Low, Shift;
  }

  lemma BitInjective(x: bv32, y: bv32)
    requires Bit(x) == Bit(y)
    ensures x == y
  {
    ShiftFacts(x, y);
    ShiftFacts(y, x);
    hide Xor, Low, Shift;
  }

  lemma Bits8Linear(x: bv32, y: bv32)
    ensures Bits8(Xor(x, y)) == Xor(Bits8(x), Bits8(y))
  {
    hide Bit, Xor;
    var a, b := Bit(x), Bit(y);
    var c, d := Bit(a), Bit(b);
    var e, f := Bit(c), Bit(d);
    var g, h := Bit(e), Bit(f);
    var i, j := Bit(g), Bit(h);
    var k, l := Bit(i), Bit(j);
    var m, n := Bit(k), Bit(l);
    BitLinear(x, y);
    BitLinear(a, b);
    BitLinear(c, d);
    BitLinear(e, f);
    BitLinear(g, h);
    BitLinear(i, j);
    BitLinear(k, l);
    BitLinear(m, n);
  }

  lemma Bits8Injective(x: bv32, y: bv32)
    requires Bits8(x) == Bits8(y)
    ensures x == y
  {
    hide Bit;
    var a, b := Bit(x), Bit(y);
    var c, d := Bit(a), Bit(b);
    var e, f := Bit(c), Bit(d);
    var g, h := Bit(e), Bit(f);
    var i, j := Bit(g), Bit(h);
    var k, l := Bit(i), Bit(j);
    var m, n := Bit(k), Bit(l);
    BitInjective(m, n);
    BitInjective(k, l);
    BitInjective(i, j);
    BitInjective(g, h);
    BitInjective(e, f);
    BitInjective(c, d);
    BitInjective(a, b);
    BitInjective(x, y);
  }

  /** A word without low byte is only shifted. */
  lemma Bits8OfHigh(h: bv32)
    requires LowByte(h) == 0
    ensures Bits8(h) == Down(h)
  {
    EightShifts(h);
    hide Xor, Low, Shift, Down;
  }

  /** Eight bit steps of a word: its low byte decides what is added to the others. */
  lemma Bits8Split(x: bv32)
    ensures Bits8(x) == Xor(Down(x), Bits8(LowByte(x)))
  {
    ByteParts(x);
    UpHasNoLow(Down(x));
    DownSmall(x);
    DownOfUp(Down(x));
    Bits8OfHigh(Up(Down(x)));
    Bits8Linear(Up(Down(x)), LowByte(x));
    hide Bits8, Xor, Down, Up, LowByte;
  }

  /** The macro: one look-up. */
  function TableByte(crc: bv32, data: bv8): bv32 {
    Xor(Down(crc), TableEntry(LowByte(Xor(crc, Wide(data)))))
  }

  /** The look-up does what eight bit steps do. */
  lemma TableByteIsSerial(crc: bv32, data: bv8)
    ensures TableByte(crc, data) == SerialByte(crc, data)
  {
    var x := Xor(crc, Wide(data));
    LowByteSmall(x);
    WideDown(crc, data);
    TableIsSerial(LowByte(x));
    Bits8Split(x);
    hide Bits8, Xor, Down, LowByte, TableEntry, Wide;
  }

  // ---------------------------------------------------------------------------
  // Whole buffers
  // ---------------------------------------------------------------------------

  /** `crc32`: one look-up for every byte of the buffer. */
  method ComputeCrc32(init: bv32, buf: seq<bv8>) returns (crc: bv32)
    ensures crc == Crc(init, buf)
  {
    hide SerialByte, TableByte, Complement;
    crc := Complement(init);
    assert buf[..0] == [];
    for p := 0 to |buf|
      invariant crc == Serial(Complement(init), buf[..p])
    {
      TableByteIsSerial(crc, buf[p]);
      assert buf[..p + 1][..p] == buf[..p];
      crc := TableByte(crc, buf[p]);
    }
    assert buf[..|buf|] == buf;
    crc := Complement(crc);
  }

  lemma {:induction false} SerialJoined(crc: bv32, a: seq<bv8>, b: seq<bv8>)
    ensures Serial(crc, a + b) == Serial(Serial(crc, a), b)
    decreases |b|
  {
    hide SerialByte;
    if b == [] {
      assert a + b == a;
    } else {
      var n := |b| - 1;
      assert (a + b)[..|a + b| - 1] == a + b[..n];
      SerialJoined(crc, a, b[..n]);
    }
  }

  /** A CRC can be continued: the complements at the end of one call and at the start of the
      next cancel. */
  lemma {:induction false} Composes(crc: bv32, a: seq<bv8>, b: seq<bv8>)
    ensures Crc(Crc(crc, a), b) == Crc(crc, a + b)
  {
    hide Complement, Serial;
    ComplementTwice(Serial(Complement(crc), a));
    SerialJoined(Complement(crc), a, b);
  }

  // ---------------------------------------------------------------------------
  // What it detects
  // ---------------------------------------------------------------------------

  /** A byte may be added eight bits further up before the steps of the byte in front. */
  lemma NextByteUp(x: bv32, y: bv32)
    requires y < 0x100_0000
    ensures Xor(Bits8(x), y) == Bits8(Xor(x, Up(y)))
  {
    UpHasNoLow(y);
    DownOfUp(y);
    Bits8OfHigh(Up(y));
    Bits8Linear(x, Up(y));
    hide Bits8, Xor, Up, Down, LowByte;
  }

  /** Four bytes go in like one word, followed by 32 bit steps. */
  lemma {:induction false} FourBytesAreAWord(crc: bv32, a: bv8, b: bv8, c: bv8, d: bv8)
    ensures SerialByte(SerialByte(SerialByte(SerialByte(crc, a), b), c), d)
         == Bits8(Bits8(Bits8(Bits8(Xor(crc, Word4(a, b, c, d))))))
  {
    var w3 := Wide(d);
    var w2 := Xor(Wide(c), Up(w3));
    var w1 := Xor(Wide(b), Up(w2));
    WordBounds(b, c, d);
    var s0 := Xor(crc, Wide(a));
    var s1 := Xor(Bits8(s0), Wide(b));
    var s2 := Xor(Bits8(s1), Wide(c));
    NextByteUp(s2, w3);
    Associates(Bits8(s1), Wide(c), Up(w3));
    NextByteUp(s1, w2);
    Associates(Bits8(s0), Wide(b), Up(w2));
    NextByteUp(s0, w1);
    Associates(crc, Wide(a), Up(w1));
    hide Bits8, Xor, Up, Wide;
  }

  lemma WordBounds(b: bv8, c: bv8, d: bv8)
    ensures Wide(d) < 0x100_0000 && Xor(Wide(c), Up(Wide(d))) < 0x100_0000
    ensures Xor(Wide(b), Up(Xor(Wide(c), Up(Wide(d))))) < 0x100_0000
  {
  }

  lemma Bits32Injective(p: bv32, q: bv32)
    requires Bits8(Bits8(Bits8(Bits8(p)))) == Bits8(Bits8(Bits8(Bits8(q))))
    ensures p == q
  {
    Bits8Injective(Bits8(Bits8(Bits8(p))), Bits8(Bits8(Bits8(q))));
    Bits8Injective(Bits8(Bits8(p)), Bits8(Bits8(q)));
    Bits8Injective(Bits8(p), Bits8(q));
    Bits8Injective(p, q);
    hide Bits8;
  }

  lemma {:induction false} FourBytes(crc: bv32, x: seq<bv8>, y: seq<bv8>)
    requires |x| == |y| == 4 && Serial(crc, x) == Serial(crc, y)
    ensures x == y
  {
    hide *;
    var v, w := Word4(x[0], x[1], x[2], x[3]), Word4(y[0], y[1], y[2], y[3]);
    SerialOfFour(crc, x);
    SerialOfFour(crc, y);
    FourBytesAreAWord(crc, x[0], x[1], x[2], x[3]);
    FourBytesAreAWord(crc, y[0], y[1], y[2], y[3]);
    Bits32Injective(Xor(crc, v), Xor(crc, w));
    Commutes(crc, v);
    Commutes(crc, w);
    Undoes(v, crc);
    Undoes(w, crc);
    Word4Injective(x[0], x[1], x[2], x[3], y[0], y[1], y[2], y[3]);
    assert x == [x[0], x[1], x[2], x[3]] && y == [y[0], y[1], y[2], y[3]];
  }

  lemma {:induction false} SerialOfFour(crc: bv32, x: seq<bv8>)
    requires |x| == 4
    ensures Serial(crc, x) == SerialByte(SerialByte(SerialByte(SerialByte(crc, x[0]), x[1]), x[2]), x[3])
  {
    hide SerialByte;
    var x3, x2, x1 := x[..3], x[..2], x[..1];
    assert x3[..2] == x2 && x2[..1] == x1 && x1[..0] == [];
    assert Serial(crc, x1) == SerialByte(crc, x[0]);
    assert Serial(crc, x2) == SerialByte(Serial(crc, x1), x[1]);
    assert Serial(crc, x3) == SerialByte(Serial(crc, x2), x[2]);
  }

  /** Different states stay different over equal bytes. */
  lemma {:induction false} DifferenceStays(c: bv32, d: bv32, buf: seq<bv8>)
    requires c != d
    ensures Serial(c, buf) != Serial(d, buf)
    decreases |buf|
  {
    if buf != [] {
      var n := |buf| - 1;
      DifferenceStays(c, d, buf[..n]);
      var p, q, w := Serial(c, buf[..n]), Serial(d, buf[..n]), Wide(buf[n]);
      Undoes(p, w);
      Undoes(q, w);
      if Bits8(Xor(p, w)) == Bits8(Xor(q, w)) {
        Bits8Injective(Xor(p, w), Xor(q, w));
      }
      hide Bits8, Xor, Wide;
    }
  }

  /** Buffers that differ only within four neighbouring bytes have different check values. */
  lemma {:induction false} BurstDetected(crc: bv32, front: seq<bv8>, x: seq<bv8>, y: seq<bv8>, back: seq<bv8>)
    requires |x| == |y| == 4 && x != y
    ensures Crc(crc, front + x + back) != Crc(crc, front + y + back)
  {
    hide Serial, Complement;
    var c := Complement(crc);
    SerialJoined(c, front + x, back);
    SerialJoined(c, front, x);
    SerialJoined(c, front + y, back);
    SerialJoined(c, front, y);
    var s := Serial(c, front);
    if Serial(s, x) == Serial(s, y) {
      FourBytes(s, x, y);
    }
    DifferenceStays(Serial(s, x), Serial(s, y), back);
    ComplementTwice(Serial(c, front + x + back));
    ComplementTwice(Serial(c, front + y + back));
  }

  // ---------------------------------------------------------------------------
  // A known check
  // ---------------------------------------------------------------------------

  /** The digits one to nine in ASCII. */
  function Nine(): seq<bv8> {
    [0x31, 0x32, 0x33, 0x34, 0x35, 0x36, 0x37, 0x38, 0x39]
  }

  lemma NineSteps()
    ensures SerialByte(0xFFFFFFFF, 0x31) == 0x7C231048
    ensures SerialByte(0x7C231048, 0x32) == 0xB0ACBB32
    ensures SerialByte(0xB0ACBB32, 0x33) == 0x77B79C2D
    ensures SerialByte(0x77B79C2D, 0x34) == 0x641C1F5C
    ensures SerialByte(0x641C1F5C, 0x35) == 0x340AC5E3
    ensures SerialByte(0x340AC5E3, 0x36) == 0xF68D2C9E
    ensures SerialByte(0xF68D2C9E, 0x37) == 0xAFFC9660
    ensures SerialByte(0xAFFC9660, 0x38) == 0x651F2550
    ensures SerialByte(0x651F2550, 0x39) == 0x340BC6D9
  {
  }

  lemma SerialNext(crc: bv32, buffer: seq<bv8>, k: nat)
    requires k < |buffer|
    ensures Serial(crc, buffer[..k + 1]) == SerialByte(Serial(crc, buffer[..k]), buffer[k])
  {
    assert buffer[..k + 1][..k] == buffer[..k];
  }

  lemma FiveSerial(s: seq<bv8>)
    requires s == Nine()
    ensures Serial(0xFFFF_FFFF, s[..5]) == 0x340A_C5E3
  {
    hide SerialByte;
    NineSteps();
    assert s[..0] == [];
    SerialNext(0xFFFF_FFFF, s, 0);
    SerialNext(0xFFFF_FFFF, s, 1);
    SerialNext(0xFFFF_FFFF, s, 2);
    SerialNext(0xFFFF_FFFF, s, 3);
    SerialNext(0xFFFF_FFFF, s, 4);
  }

  lemma NineSerial(s: seq<bv8>)
    requires s == Nine()
    ensures Serial(0xFFFF_FFFF, s) == 0x340B_C6D9
  {
    hide SerialByte, Serial;
    NineSteps();
    FiveSerial(s);
    SerialNext(0xFFFF_FFFF, s, 5);
    SerialNext(0xFFFF_FFFF, s, 6);
    SerialNext(0xFFFF_FFFF, s, 7);
    SerialNext(0xFFFF_FFFF, s, 8);
    assert s[..9] == s;
  }

  /** The check of the nine digits is 0xCBF43926. */
  lemma KnownAnswer()
    ensures Crc(0, Nine()) == 0xCBF4_3926
  {
    hide Serial;
    NineSerial(Nine());
    assert Complement(0) == 0xFFFF_FFFF;
  }
}
