/** The inverse convention of a smart card: a table that turns a byte round. */
module ByteInvert {
  import opened Common

  // ---------------------------------------------------------------------------
  // The table, in rows of sixteen
  // ---------------------------------------------------------------------------

  function Row0(l: nat): byte {
    if l == 0 then 0xFF else if l == 1 then 0x7F else if l == 2 then 0xBF else if l == 3 then 0x3F
    else if l == 4 then 0xDF else if l == 5 then 0x5F else if l == 6 then 0x9F else if l == 7 then 0x1F
    else if l == 8 then 0xEF else if l == 9 then 0x6F else if l == 10 then 0xAF else if l == 11 then 0x2F
    else if l == 12 then 0xCF else if l == 13 then 0x4F else if l == 14 then 0x8F else 0x0F
  }

  function Row1(l: nat): byte {
    if l == 0 then 0xF7 else if l == 1 then 0x77 else if l == 2 then 0xB7 else if l == 3 then 0x37
    else if l == 4 then 0xD7 else if l == 5 then 0x57 else if l == 6 then 0x97 else if l == 7 then 0x17
    else if l == 8 then 0xE7 else if l == 9 then 0x67 else if l == 10 then 0xA7 else if l == 11 then 0x27
    else if l == 12 then 0xC7 else if l == 13 then 0x47 else if l == 14 then 0x87 else 0x07
  }

  function Row2(l: nat): byte {
    if l == 0 then 0xFB else if l == 1 then 0x7B else if l == 2 then 0xBB else if l == 3 then 0x3B
    else if l == 4 then 0xDB else if l == 5 then 0x5B else if l == 6 then 0x9B else if l == 7 then 0x1B
    else if l == 8 then 0xEB else if l == 9 then 0x6B else if l == 10 then 0xAB else if l == 11 then 0x2B
    else if l == 12 then 0xCB else if l == 13 then 0x4B else if l == 14 then 0x8B else 0x0B
  }

  function Row3(l: nat): byte {
    if l == 0 then 0xF3 else if l == 1 then 0x73 else if l == 2 then 0xB3 else if l == 3 then 0x33
    else if l == 4 then 0xD3 else if l == 5 then 0x53 else if l == 6 then 0x93 else if l == 7 then 0x13
    else if l == 8 then 0xE3 else if l == 9 then 0x63 else if l == 10 then 0xA3 else if l == 11 then 0x23
    else if l == 12 then 0xC3 else if l == 13 then 0x43 else if l == 14 then 0x83 else 0x03
  }

  function Row4(l: nat): byte {
    if l == 0 then 0xFD else if l == 1 then 0x7D else if l == 2 then 0xBD else if l == 3 then 0x3D
    else if l == 4 then 0xDD else if l == 5 then 0x5D else if l == 6 then 0x9D else if l == 7 then 0x1D
    else if l == 8 then 0xED else if l == 9 then 0x6D else if l == 10 then 0xAD else if l == 11 then 0x2D
    else if l == 12 then 0xCD else if l == 13 then 0x4D else if l == 14 then 0x8D else 0x0D
  }

  function Row5(l: nat): byte {
    if l == 0 then 0xF5 else if l == 1 then 0x75 else if l == 2 then 0xB5 else if l == 3 then 0x35
    else if l == 4 then 0xD5 else if l == 5 then 0x55 else if l == 6 then 0x95 else if l == 7 then 0x15
    else if l == 8 then 0xE5 else if l == 9 then 0x65 else if l == 10 then 0xA5 else if l == 11 then 0x25
    else if l == 12 then 0xC5 else if l == 13 then 0x45 else if l == 14 then 0x85 else 0x05
  }

  function Row6(l: nat): byte {
    if l == 0 then 0xF9 else if l == 1 then 0x79 else if l == 2 then 0xB9 else if l == 3 then 0x39
    else if l == 4 then 0xD9 else if l == 5 then 0x59 else if l == 6 then 0x99 else if l == 7 then 0x19
    else if l == 8 then 0xE9 else if l == 9 then 0x69 else if l == 10 then 0xA9 else if l == 11 then 0x29
    else if l == 12 then 0xC9 else if l == 13 then 0x49 else if l == 14 then 0x89 else 0x09
  }

  function Row7(l: nat): byte {
    if l == 0 then 0xF1 else if l == 1 then 0x71 else if l == 2 then 0xB1 else if l == 3 then 0x31
    else if l == 4 then 0xD1 else if l == 5 then 0x51 else if l == 6 then 0x91 else if l == 7 then 0x11
    else if l == 8 then 0xE1 else if l == 9 then 0x61 else if l == 10 then 0xA1 else if l == 11 then 0x21
    else if l == 12 then 0xC1 else if l == 13 then 0x41 else if l == 14 then 0x81 else 0x01
  }

  function Row8(l: nat): byte {
    if l == 0 then 0xFE else if l == 1 then 0x7E else if l == 2 then 0xBE else if l == 3 then 0x3E
    else if l == 4 then 0xDE else if l == 5 then 0x5E else if l == 6 then 0x9E else if l == 7 then 0x1E
    else if l == 8 then 0xEE else if l == 9 then 0x6E else if l == 10 then 0xAE else if l == 11 then 0x2E
    else if l == 12 then 0xCE else if l == 13 then 0x4E else if l == 14 then 0x8E else 0x0E
  }

  function Row9(l: nat): byte {
    if l == 0 then 0xF6 else if l == 1 then 0x76 else if l == 2 then 0xB6 else if l == 3 then 0x36
    else if l == 4 then 0xD6 else if l == 5 then 0x56 else if l == 6 then 0x96 else if l == 7 then 0x16
    else if l == 8 then 0xE6 else if l == 9 then 0x66 else if l == 10 then 0xA6 else if l == 11 then 0x26
    else if l == 12 then 0xC6 else if l == 13 then 0x46 else if l == 14 then 0x86 else 0x06
  }

  function Row10(l: nat): byte {
    if l == 0 then 0xFA else if l == 1 then 0x7A else if l == 2 then 0xBA else if l == 3 then 0x3A
    else if l == 4 then 0xDA else if l == 5 then 0x5A else if l == 6 then 0x9A else if l == 7 then 0x1A
    else if l == 8 then 0xEA else if l == 9 then 0x6A else if l == 10 then 0xAA else if l == 11 then 0x2A
    else if l == 12 then 0xCA else if l == 13 then 0x4A else if l == 14 then 0x8A else 0x0A
  }

  function Row11(l: nat): byte {
    if l == 0 then 0xF2 else if l == 1 then 0x72 else if l == 2 then 0xB2 else if l == 3 then 0x32
    else if l == 4 then 0xD2 else if l == 5 then 0x52 else if l == 6 then 0x92 else if l == 7 then 0x12
    else if l == 8 then 0xE2 else if l == 9 then 0x62 else if l == 10 then 0xA2 else if l == 11 then 0x22
    else if l == 12 then 0xC2 else if l == 13 then 0x42 else if l == 14 then 0x82 else 0x02
  }

  function Row12(l: nat): byte {
    if l == 0 then 0xFC else if l == 1 then 0x7C else if l == 2 then 0xBC else if l == 3 then 0x3C
    else if l == 4 then 0xDC else if l == 5 then 0x5C else if l == 6 then 0x9C else if l == 7 then 0x1C
    else if l == 8 then 0xEC else if l == 9 then 0x6C else if l == 10 then 0xAC else if l == 11 then 0x2C
    else if l == 12 then 0xCC else if l == 13 then 0x4C else if l == 14 then 0x8C else 0x0C
  }

  function Row13(l: nat): byte {
    if l == 0 then 0xF4 else if l == 1 then 0x74 else if l == 2 then 0xB4 else if l == 3 then 0x34
    else if l == 4 then 0xD4 else if l == 5 then 0x54 else if l == 6 then 0x94 else if l == 7 then 0x14
    else if l == 8 then 0xE4 else if l == 9 then 0x64 else if l == 10 then 0xA4 else if l == 11 then 0x24
    else if l == 12 then 0xC4 else if l == 13 then 0x44 else if l == 14 then 0x84 else 0x04
  }

  function Row14(l: nat): byte {
    if l == 0 then 0xF8 else if l == 1 then 0x78 else if l == 2 then 0xB8 else if l == 3 then 0x38
    else if l == 4 then 0xD8 else if l == 5 then 0x58 else if l == 6 then 0x98 else if l == 7 then 0x18
    else if l == 8 then 0xE8 else if l == 9 then 0x68 else if l == 10 then 0xA8 else if l == 11 then 0x28
    else if l == 12 then 0xC8 else if l == 13 then 0x48 else if l == 14 then 0x88 else 0x08
  }

  function Row15(l: nat): byte {
    if l == 0 then 0xF0 else if l == 1 then 0x70 else if l == 2 then 0xB0 else if l == 3 then 0x30
    else if l == 4 then 0xD0 else if l == 5 then 0x50 else if l == 6 then 0x90 else if l == 7 then 0x10
    else if l == 8 then 0xE0 else if l == 9 then 0x60 else if l == 10 then 0xA0 else if l == 11 then 0x20
    else if l == 12 then 0xC0 else if l == 13 then 0x40 else if l == 14 then 0x80 else 0x00
  }

  function Row(h: nat, l: nat): byte {
    if h == 0 then Row0(l) else if h == 1 then Row1(l) else if h == 2 then Row2(l) else if h == 3 then Row3(l)
    else if h == 4 then Row4(l) else if h == 5 then Row5(l) else if h == 6 then Row6(l) else if h == 7 then Row7(l)
    else if h == 8 then Row8(l) else if h == 9 then Row9(l) else if h == 10 then Row10(l) else if h == 11 then Row11(l)
    else if h == 12 then Row12(l) else if h == 13 then Row13(l) else if h == 14 then Row14(l) else Row15(l)
  }

  /** The entry of a byte. */
  function Inverted(b: byte): byte {
    Row(b / 16, b % 16)
  }

  // ---------------------------------------------------------------------------
  // What the table is
  // ---------------------------------------------------------------------------

  function Column(n: nat): (r: nat)
    ensures r < 16
  {
    if n == 0 then 15 else if n == 1 then 7 else if n == 2 then 11 else if n == 3 then 3
    else if n == 4 then 13 else if n == 5 then 5 else if n == 6 then 9 else if n == 7 then 1
    else if n == 8 then 14 else if n == 9 then 6 else if n == 10 then 10 else if n == 11 then 2
    else if n == 12 then 12 else if n == 13 then 4 else if n == 14 then 8 else 0
  }

  lemma {:induction false} RowIs0(l: nat)
    requires l < 16
    ensures Row0(l) == 16 * Column(l) + 15
  {
  }

  lemma {:induction false} RowIs1(l: nat)
    requires l < 16
    ensures Row1(l) == 16 * Column(l) + 7
  {
  }

  lemma {:induction false} RowIs2(l: nat)
    requires l < 16
    ensures Row2(l) == 16 * Column(l) + 11
  {
  }

  lemma {:induction false} RowIs3(l: nat)
    requires l < 16
    ensures Row3(l) == 16 * Column(l) + 3
  {
  }

  lemma {:induction false} RowIs4(l: nat)
    requires l < 16
    ensures Row4(l) == 16 * Column(l) + 13
  {
  }

  lemma {:induction false} RowIs5(l: nat)
    requires l < 16
    ensures Row5(l) == 16 * Column(l) + 5
  {
  }

  lemma {:induction false} RowIs6(l: nat)
    requires l < 16
    ensures Row6(l) == 16 * Column(l) + 9
  {
  }

  lemma {:induction false} RowIs7(l: nat)
    requires l < 16
    ensures Row7(l) == 16 * Column(l) + 1
  {
  }

  lemma {:induction false} RowIs8(l: nat)
    requires l < 16
    ensures Row8(l) == 16 * Column(l) + 14
  {
  }

  lemma {:induction false} RowIs9(l: nat)
    requires l < 16
    ensures Row9(l) == 16 * Column(l) + 6
  {
  }

  lemma {:induction false} RowIs10(l: nat)
    requires l < 16
    ensures Row10(l) == 16 * Column(l) + 10
  {
  }

  lemma {:induction false} RowIs11(l: nat)
    requires l < 16
    ensures Row11(l) == 16 * Column(l) + 2
  {
  }

  lemma {:induction false} RowIs12(l: nat)
    requires l < 16
    ensures Row12(l) == 16 * Column(l) + 12
  {
  }

  lemma {:induction false} RowIs13(l: nat)
    requires l < 16
    ensures Row13(l) == 16 * Column(l) + 4
  {
  }

  lemma {:induction false} RowIs14(l: nat)
    requires l < 16
    ensures Row14(l) == 16 * Column(l) + 8
  {
  }

  lemma {:induction false} RowIs15(l: nat)
    requires l < 16
    ensures Row15(l) == 16 * Column(l) + 0
  {
  }

  lemma {:induction false} TableIs(h: nat, l: nat)
    requires h < 16 && l < 16
    ensures Row(h, l) == 16 * Column(l) + Column(h)
  {
    hide Row0, Row1, Row2, Row3, Row4, Row5, Row6, Row7, Row8, Row9, Row10, Row11, Row12, Row13, Row14, Row15;
    RowIs0(l);
    RowIs1(l);
    RowIs2(l);
    RowIs3(l);
    RowIs4(l);
    RowIs5(l);
    RowIs6(l);
    RowIs7(l);
    RowIs8(l);
    RowIs9(l);
    RowIs10(l);
    RowIs11(l);
    RowIs12(l);
    RowIs13(l);
    RowIs14(l);
    RowIs15(l);
  }

  lemma {:induction false} ColumnTwice(n: nat)
    requires n < 16
    ensures Column(Column(n)) == n
  {
  }

  /** Bit `i` of four. */
  function NibbleBit(n: nat, i: nat): nat {
    if i == 0 then n % 2 else if i == 1 then n / 2 % 2 else if i == 2 then n / 4 % 2 else n / 8 % 2
  }

  /** Bit `i` of a byte. */
  function Bit(b: byte, i: nat): nat
    requires i < 8
  {
    if i < 4 then NibbleBit(b % 16, i) else NibbleBit(b / 16, i - 4)
  }

  lemma {:induction false} ColumnBits(n: nat, i: nat)
    requires n < 16 && i < 4
    ensures NibbleBit(Column(n), i) == 1 - NibbleBit(n, 3 - i)
  {
    if n == 0 { } else if n == 1 { } else if n == 2 { } else if n == 3 { }
    else if n == 4 { } else if n == 5 { } else if n == 6 { } else if n == 7 { }
    else if n == 8 { } else if n == 9 { } else if n == 10 { } else if n == 11 { }
    else if n == 12 { } else if n == 13 { } else if n == 14 { } else { assert n == 15; }
  }

  /** Turning a byte round twice gives it back. */
  lemma {:induction false} InvertedTwice(b: byte)
    ensures Inverted(Inverted(b)) == b
  {
    hide Row, Column;
    var h, l := b / 16, b % 16;
    TableIs(h, l);
    TableIs(Column(l), Column(h));
    ColumnTwice(h);
    ColumnTwice(l);
  }

  /** The table reverses the order of the bits and inverts each one. */
  lemma {:induction false} BitsTurned(b: byte, i: nat)
    requires i < 8
    ensures Bit(Inverted(b), i) == 1 - Bit(b, 7 - i)
  {
    hide Row, Column, NibbleBit;
    var h, l := b / 16, b % 16;
    TableIs(h, l);
    if i < 4 {
      ColumnBits(h, i);
    } else {
      ColumnBits(l, i - 4);
    }
  }
}
