/** The example of FIPS 180-4 for one block: the message "abc". It ties the constants, the
    order of the bytes and the round functions to numbers. */
module Sha1Known {
  import opened Common
  import opened Sha1Rounds
  import opened Sha1Stream
  import opened Sha1

  /** "abc", the mark, zeros, and the length of 24 bits, as words. */
  function AbcBlock(): (m: seq<Word>)
    ensures |m| == 16
  {
    [0x61626380, 0, 0, 0, 0, 0, 0, 0, 0, 0, 0, 0, 0, 0, 0, 0x18]
  }

  function AbcStart(): Vars {
    Vars(0x67452301, 0xEFCDAB89, 0x98BADCFE, 0x10325476, 0xC3D2E1F0)
  }

  // ---------------------------------------------------------------------------
  // The schedule and the rounds
  // ---------------------------------------------------------------------------

  lemma {:induction false} ScheduleStep(t: nat, p: Word, q: Word, r: Word, s: Word, w: Word)
    requires 16 <= t && Rotl1(Xor4(p, q, r, s)) == w
    requires W(AbcBlock(), t - 3) == p && W(AbcBlock(), t - 8) == q
    requires W(AbcBlock(), t - 14) == r && W(AbcBlock(), t - 16) == s
    ensures W(AbcBlock(), t) == w
  {
  }

  lemma {:induction false} RoundStep(t: nat, v: Vars, w: Word, u: Vars)
    requires Rounds(AbcBlock(), AbcStart(), t) == v && W(AbcBlock(), t) == w && Step(v, t, w) == u
    ensures Rounds(AbcBlock(), AbcStart(), t + 1) == u
  {
  }

  lemma {:induction false} FirstWord(t: nat)
    requires t < 16
    ensures W(AbcBlock(), t) == AbcBlock()[t]
  {
    hide AbcBlock;
  }

  lemma {:induction false} Words0()
    ensures W(AbcBlock(), 0) == 0x61626380 && W(AbcBlock(), 1) == 0x00000000
    ensures W(AbcBlock(), 2) == 0x00000000 && W(AbcBlock(), 3) == 0x00000000
    ensures W(AbcBlock(), 4) == 0x00000000 && W(AbcBlock(), 5) == 0x00000000
    ensures W(AbcBlock(), 6) == 0x00000000 && W(AbcBlock(), 7) == 0x00000000
    ensures W(AbcBlock(), 8) == 0x00000000 && W(AbcBlock(), 9) == 0x00000000
    ensures W(AbcBlock(), 10) == 0x00000000 && W(AbcBlock(), 11) == 0x00000000
    ensures W(AbcBlock(), 12) == 0x00000000 && W(AbcBlock(), 13) == 0x00000000
    ensures W(AbcBlock(), 14) == 0x00000000 && W(AbcBlock(), 15) == 0x00000018
  {
    hide W;
    FirstWord(0);
    FirstWord(1);
    FirstWord(2);
    FirstWord(3);
    FirstWord(4);
    FirstWord(5);
    FirstWord(6);
    FirstWord(7);
    FirstWord(8);
    FirstWord(9);
    FirstWord(10);
    FirstWord(11);
    FirstWord(12);
    FirstWord(13);
    FirstWord(14);
    FirstWord(15);
  }

  lemma {:induction false} Words16()
    ensures W(AbcBlock(), 16) == 0xC2C4C700 && W(AbcBlock(), 17) == 0x00000000
    ensures W(AbcBlock(), 18) == 0x00000030 && W(AbcBlock(), 19) == 0x85898E01
    ensures W(AbcBlock(), 20) == 0x00000000 && W(AbcBlock(), 21) == 0x00000060
    ensures W(AbcBlock(), 22) == 0x0B131C03 && W(AbcBlock(), 23) == 0x00000030
  {
    hide W, AbcBlock;
    Words0();
    ScheduleStep(16, 0x00000000, 0x00000000, 0x00000000, 0x61626380, 0xC2C4C700);
    ScheduleStep(17, 0x00000000, 0x00000000, 0x00000000, 0x00000000, 0x00000000);
    ScheduleStep(18, 0x00000018, 0x00000000, 0x00000000, 0x00000000, 0x00000030);
    ScheduleStep(19, 0xC2C4C700, 0x00000000, 0x00000000, 0x00000000, 0x85898E01);
    ScheduleStep(20, 0x00000000, 0x00000000, 0x00000000, 0x00000000, 0x00000000);
    ScheduleStep(21, 0x00000030, 0x00000000, 0x00000000, 0x00000000, 0x00000060);
    ScheduleStep(22, 0x85898E01, 0x00000000, 0x00000000, 0x00000000, 0x0B131C03);
    ScheduleStep(23, 0x00000000, 0x00000018, 0x00000000, 0x00000000, 0x00000030);
  }

  lemma {:induction false} Words24()
    ensures W(AbcBlock(), 24) == 0x85898EC1 && W(AbcBlock(), 25) == 0x16263806
    ensures W(AbcBlock(), 26) == 0x00000000 && W(AbcBlock(), 27) == 0x00000180
    ensures W(AbcBlock(), 28) == 0x2C4C700C && W(AbcBlock(), 29) == 0x000000F0
    ensures W(AbcBlock(), 30) == 0x93AFB507 && W(AbcBlock(), 31) == 0x5898E048
  {
    hide W, AbcBlock;
    Words0();
    Words16();
    ScheduleStep(24, 0x00000060, 0xC2C4C700, 0x00000000, 0x00000000, 0x85898EC1);
    ScheduleStep(25, 0x0B131C03, 0x00000000, 0x00000000, 0x00000000, 0x16263806);
    ScheduleStep(26, 0x00000030, 0x00000030, 0x00000000, 0x00000000, 0x00000000);
    ScheduleStep(27, 0x85898EC1, 0x85898E01, 0x00000000, 0x00000000, 0x00000180);
    ScheduleStep(28, 0x16263806, 0x00000000, 0x00000000, 0x00000000, 0x2C4C700C);
    ScheduleStep(29, 0x00000000, 0x00000060, 0x00000018, 0x00000000, 0x000000F0);
    ScheduleStep(30, 0x00000180, 0x0B131C03, 0xC2C4C700, 0x00000000, 0x93AFB507);
    ScheduleStep(31, 0x2C4C700C, 0x00000030, 0x00000000, 0x00000018, 0x5898E048);
  }

  lemma {:induction false} Words32()
    ensures W(AbcBlock(), 32) == 0x8E9A9202 && W(AbcBlock(), 33) == 0x00000600
    ensures W(AbcBlock(), 34) == 0xB131C0F0 && W(AbcBlock(), 35) == 0x16263BC6
    ensures W(AbcBlock(), 36) == 0x4EBED41E && W(AbcBlock(), 37) == 0x626380A1
    ensures W(AbcBlock(), 38) == 0x16263806 && W(AbcBlock(), 39) == 0x000018C0
  {
    hide W, AbcBlock;
    Words16();
    Words24();
    ScheduleStep(32, 0x000000F0, 0x85898EC1, 0x00000030, 0xC2C4C700, 0x8E9A9202);
    ScheduleStep(33, 0x93AFB507, 0x16263806, 0x85898E01, 0x00000000, 0x00000600);
    ScheduleStep(34, 0x5898E048, 0x00000000, 0x00000000, 0x00000030, 0xB131C0F0);
    ScheduleStep(35, 0x8E9A9202, 0x00000180, 0x00000060, 0x85898E01, 0x16263BC6);
    ScheduleStep(36, 0x00000600, 0x2C4C700C, 0x0B131C03, 0x00000000, 0x4EBED41E);
    ScheduleStep(37, 0xB131C0F0, 0x000000F0, 0x00000030, 0x00000060, 0x626380A1);
    ScheduleStep(38, 0x16263BC6, 0x93AFB507, 0x85898EC1, 0x0B131C03, 0x16263806);
    ScheduleStep(39, 0x4EBED41E, 0x5898E048, 0x16263806, 0x00000030, 0x000018C0);
  }

  lemma {:induction false} Words40()
    ensures W(AbcBlock(), 40) == 0xD2E138C4 && W(AbcBlock(), 41) == 0x00000F00
    ensures W(AbcBlock(), 42) == 0x3AFB5079 && W(AbcBlock(), 43) == 0x898E04E5
    ensures W(AbcBlock(), 44) == 0xE2BA3C2B && W(AbcBlock(), 45) == 0x000060C0
    ensures W(AbcBlock(), 46) == 0x053A37CD && W(AbcBlock(), 47) == 0x74458547
  {
    hide W, AbcBlock;
    Words24();
    Words32();
    ScheduleStep(40, 0x626380A1, 0x8E9A9202, 0x00000000, 0x85898EC1, 0xD2E138C4);
    ScheduleStep(41, 0x16263806, 0x00000600, 0x00000180, 0x16263806, 0x00000F00);
    ScheduleStep(42, 0x000018C0, 0xB131C0F0, 0x2C4C700C, 0x00000000, 0x3AFB5079);
    ScheduleStep(43, 0xD2E138C4, 0x16263BC6, 0x000000F0, 0x00000180, 0x898E04E5);
    ScheduleStep(44, 0x00000F00, 0x4EBED41E, 0x93AFB507, 0x2C4C700C, 0xE2BA3C2B);
    ScheduleStep(45, 0x3AFB5079, 0x626380A1, 0x5898E048, 0x000000F0, 0x000060C0);
    ScheduleStep(46, 0x898E04E5, 0x16263806, 0x8E9A9202, 0x93AFB507, 0x053A37CD);
    ScheduleStep(47, 0xE2BA3C2B, 0x000018C0, 0x00000600, 0x5898E048, 0x74458547);
  }

  lemma {:induction false} Words48()
    ensures W(AbcBlock(), 48) == 0xDA9415ED && W(AbcBlock(), 49) == 0x26380A16
    ensures W(AbcBlock(), 50) == 0x626383A1 && W(AbcBlock(), 51) == 0x4EBF54DE
    ensures W(AbcBlock(), 52) == 0x3835B44B && W(AbcBlock(), 53) == 0x0000F600
    ensures W(AbcBlock(), 54) == 0x1E84C7A3 && W(AbcBlock(), 55) == 0x98E04D98
  {
    hide W, AbcBlock;
    Words32();
    Words40();
    ScheduleStep(48, 0x000060C0, 0xD2E138C4, 0xB131C0F0, 0x8E9A9202, 0xDA9415ED);
    ScheduleStep(49, 0x053A37CD, 0x00000F00, 0x16263BC6, 0x00000600, 0x26380A16);
    ScheduleStep(50, 0x74458547, 0x3AFB5079, 0x4EBED41E, 0xB131C0F0, 0x626383A1);
    ScheduleStep(51, 0xDA9415ED, 0x898E04E5, 0x626380A1, 0x16263BC6, 0x4EBF54DE);
    ScheduleStep(52, 0x26380A16, 0xE2BA3C2B, 0x16263806, 0x4EBED41E, 0x3835B44B);
    ScheduleStep(53, 0x626383A1, 0x000060C0, 0x000018C0, 0x626380A1, 0x0000F600);
    ScheduleStep(54, 0x4EBF54DE, 0x053A37CD, 0xD2E138C4, 0x16263806, 0x1E84C7A3);
    ScheduleStep(55, 0x3835B44B, 0x74458547, 0x00000F00, 0x000018C0, 0x98E04D98);
  }

  lemma {:induction false} Words56()
    ensures W(AbcBlock(), 56) == 0x651D16A0 && W(AbcBlock(), 57) == 0x62658CA1
    ensures W(AbcBlock(), 58) == 0x458544D6 && W(AbcBlock(), 59) == 0x44584CB7
    ensures W(AbcBlock(), 60) == 0x7BA06619 && W(AbcBlock(), 61) == 0x6380AEA2
    ensures W(AbcBlock(), 62) == 0x0AE55269 && W(AbcBlock(), 63) == 0x627B49A1
  {
    hide W, AbcBlock;
    Words40();
    Words48();
    ScheduleStep(56, 0x0000F600, 0xDA9415ED, 0x3AFB5079, 0xD2E138C4, 0x651D16A0);
    ScheduleStep(57, 0x1E84C7A3, 0x26380A16, 0x898E04E5, 0x00000F00, 0x62658CA1);
    ScheduleStep(58, 0x98E04D98, 0x626383A1, 0xE2BA3C2B, 0x3AFB5079, 0x458544D6);
    ScheduleStep(59, 0x651D16A0, 0x4EBF54DE, 0x000060C0, 0x898E04E5, 0x44584CB7);
    ScheduleStep(60, 0x62658CA1, 0x3835B44B, 0x053A37CD, 0xE2BA3C2B, 0x7BA06619);
    ScheduleStep(61, 0x458544D6, 0x0000F600, 0x74458547, 0x000060C0, 0x6380AEA2);
    ScheduleStep(62, 0x44584CB7, 0x1E84C7A3, 0xDA9415ED, 0x053A37CD, 0x0AE55269);
    ScheduleStep(63, 0x7BA06619, 0x98E04D98, 0x26380A16, 0x74458547, 0x627B49A1);
  }

  lemma {:induction false} Words64()
    ensures W(AbcBlock(), 64) == 0x7CD45C9D && W(AbcBlock(), 65) == 0x000F0000
    ensures W(AbcBlock(), 66) == 0xFB50753A && W(AbcBlock(), 67) == 0xEC6765E8
    ensures W(AbcBlock(), 68) == 0xBA3C2BE2 && W(AbcBlock(), 69) == 0x0060C000
    ensures W(AbcBlock(), 70) == 0x3A37CD05 && W(AbcBlock(), 71) == 0x458546F4
  {
    hide W, AbcBlock;
    Words48();
    Words56();
    ScheduleStep(64, 0x6380AEA2, 0x651D16A0, 0x626383A1, 0xDA9415ED, 0x7CD45C9D);
    ScheduleStep(65, 0x0AE55269, 0x62658CA1, 0x4EBF54DE, 0x26380A16, 0x000F0000);
    ScheduleStep(66, 0x627B49A1, 0x458544D6, 0x3835B44B, 0x626383A1, 0xFB50753A);
    ScheduleStep(67, 0x7CD45C9D, 0x44584CB7, 0x0000F600, 0x4EBF54DE, 0xEC6765E8);
    ScheduleStep(68, 0x000F0000, 0x7BA06619, 0x1E84C7A3, 0x3835B44B, 0xBA3C2BE2);
    ScheduleStep(69, 0xFB50753A, 0x6380AEA2, 0x98E04D98, 0x0000F600, 0x0060C000);
    ScheduleStep(70, 0xEC6765E8, 0x0AE55269, 0x651D16A0, 0x1E84C7A3, 0x3A37CD05);
    ScheduleStep(71, 0xBA3C2BE2, 0x627B49A1, 0x62658CA1, 0x98E04D98, 0x458546F4);
  }

  lemma {:induction false} Words72()
    ensures W(AbcBlock(), 72) == 0xB8599DD6 && W(AbcBlock(), 73) == 0x380A1A26
    ensures W(AbcBlock(), 74) == 0x01E02203 && W(AbcBlock(), 75) == 0xE7CC3456
    ensures W(AbcBlock(), 76) == 0xE6E60B69 && W(AbcBlock(), 77) == 0x00F60A00
    ensures W(AbcBlock(), 78) == 0x5795EF4F && W(AbcBlock(), 79) == 0x822E0879
  {
    hide W, AbcBlock;
    Words56();
    Words64();
    ScheduleStep(72, 0x0060C000, 0x7CD45C9D, 0x458544D6, 0x651D16A0, 0xB8599DD6);
    ScheduleStep(73, 0x3A37CD05, 0x000F0000, 0x44584CB7, 0x62658CA1, 0x380A1A26);
    ScheduleStep(74, 0x458546F4, 0xFB50753A, 0x7BA06619, 0x458544D6, 0x01E02203);
    ScheduleStep(75, 0xB8599DD6, 0xEC6765E8, 0x6380AEA2, 0x44584CB7, 0xE7CC3456);
    ScheduleStep(76, 0x380A1A26, 0xBA3C2BE2, 0x0AE55269, 0x7BA06619, 0xE6E60B69);
    ScheduleStep(77, 0x01E02203, 0x0060C000, 0x627B49A1, 0x6380AEA2, 0x00F60A00);
    ScheduleStep(78, 0xE7CC3456, 0x3A37CD05, 0x7CD45C9D, 0x0AE55269, 0x5795EF4F);
    ScheduleStep(79, 0xE6E60B69, 0x458546F4, 0x000F0000, 0x627B49A1, 0x822E0879);
  }

  lemma {:induction false} Rounds8()
    ensures Rounds(AbcBlock(), AbcStart(), 8)
         == Vars(0x9E8C07D4, 0x993E30C1, 0x0FF1F290, 0xB3F52677, 0xF3763846)
  {
    assert Rounds(AbcBlock(), AbcStart(), 0) == AbcStart();
    hide W, Rounds, AbcBlock;
    Words0();
    RoundStep(0, Vars(0x67452301, 0xEFCDAB89, 0x98BADCFE, 0x10325476, 0xC3D2E1F0), 0x61626380,
              Vars(0x0116FC33, 0x67452301, 0x7BF36AE2, 0x98BADCFE, 0x10325476));
    RoundStep(1, Vars(0x0116FC33, 0x67452301, 0x7BF36AE2, 0x98BADCFE, 0x10325476), 0x00000000,
              Vars(0x8990536D, 0x0116FC33, 0x59D148C0, 0x7BF36AE2, 0x98BADCFE));
    RoundStep(2, Vars(0x8990536D, 0x0116FC33, 0x59D148C0, 0x7BF36AE2, 0x98BADCFE), 0x00000000,
              Vars(0xA1390F08, 0x8990536D, 0xC045BF0C, 0x59D148C0, 0x7BF36AE2));
    RoundStep(3, Vars(0xA1390F08, 0x8990536D, 0xC045BF0C, 0x59D148C0, 0x7BF36AE2), 0x00000000,
              Vars(0xCDD8E11B, 0xA1390F08, 0x626414DB, 0xC045BF0C, 0x59D148C0));
    RoundStep(4, Vars(0xCDD8E11B, 0xA1390F08, 0x626414DB, 0xC045BF0C, 0x59D148C0), 0x00000000,
              Vars(0xCFD499DE, 0xCDD8E11B, 0x284E43C2, 0x626414DB, 0xC045BF0C));
    RoundStep(5, Vars(0xCFD499DE, 0xCDD8E11B, 0x284E43C2, 0x626414DB, 0xC045BF0C), 0x00000000,
              Vars(0x3FC7CA40, 0xCFD499DE, 0xF3763846, 0x284E43C2, 0x626414DB));
    RoundStep(6, Vars(0x3FC7CA40, 0xCFD499DE, 0xF3763846, 0x284E43C2, 0x626414DB), 0x00000000,
              Vars(0x993E30C1, 0x3FC7CA40, 0xB3F52677, 0xF3763846, 0x284E43C2));
    RoundStep(7, Vars(0x993E30C1, 0x3FC7CA40, 0xB3F52677, 0xF3763846, 0x284E43C2), 0x00000000,
              Vars(0x9E8C07D4, 0x993E30C1, 0x0FF1F290, 0xB3F52677, 0xF3763846));
  }

  lemma {:induction false} Rounds16()
    ensures Rounds(AbcBlock(), AbcStart(), 16)
         == Vars(0x20BDD62F, 0x196BEE77, 0x644A3DA5, 0x1181ED99, 0x18C623F9)
  {
    hide W, Rounds, AbcBlock, AbcStart;
    Rounds8();
    Words0();
    RoundStep(8, Vars(0x9E8C07D4, 0x993E30C1, 0x0FF1F290, 0xB3F52677, 0xF3763846), 0x00000000,
              Vars(0x4B6AE328, 0x9E8C07D4, 0x664F8C30, 0x0FF1F290, 0xB3F52677));
    RoundStep(9, Vars(0x4B6AE328, 0x9E8C07D4, 0x664F8C30, 0x0FF1F290, 0xB3F52677), 0x00000000,
              Vars(0x8351F929, 0x4B6AE328, 0x27A301F5, 0x664F8C30, 0x0FF1F290));
    RoundStep(10, Vars(0x8351F929, 0x4B6AE328, 0x27A301F5, 0x664F8C30, 0x0FF1F290), 0x00000000,
              Vars(0xFBDA9E89, 0x8351F929, 0x12DAB8CA, 0x27A301F5, 0x664F8C30));
    RoundStep(11, Vars(0xFBDA9E89, 0x8351F929, 0x12DAB8CA, 0x27A301F5, 0x664F8C30), 0x00000000,
              Vars(0x63188FE4, 0xFBDA9E89, 0x60D47E4A, 0x12DAB8CA, 0x27A301F5));
    RoundStep(12, Vars(0x63188FE4, 0xFBDA9E89, 0x60D47E4A, 0x12DAB8CA, 0x27A301F5), 0x00000000,
              Vars(0x4607B664, 0x63188FE4, 0x7EF6A7A2, 0x60D47E4A, 0x12DAB8CA));
    RoundStep(13, Vars(0x4607B664, 0x63188FE4, 0x7EF6A7A2, 0x60D47E4A, 0x12DAB8CA), 0x00000000,
              Vars(0x9128F695, 0x4607B664, 0x18C623F9, 0x7EF6A7A2, 0x60D47E4A));
    RoundStep(14, Vars(0x9128F695, 0x4607B664, 0x18C623F9, 0x7EF6A7A2, 0x60D47E4A), 0x00000000,
              Vars(0x196BEE77, 0x9128F695, 0x1181ED99, 0x18C623F9, 0x7EF6A7A2));
    RoundStep(15, Vars(0x196BEE77, 0x9128F695, 0x1181ED99, 0x18C623F9, 0x7EF6A7A2), 0x00000018,
              Vars(0x20BDD62F, 0x196BEE77, 0x644A3DA5, 0x1181ED99, 0x18C623F9));
  }

  lemma {:induction false} Rounds24()
    ensures Rounds(AbcBlock(), AbcStart(), 24)
         == Vars(0xD541F12D, 0x21283486, 0x0CE88EFF, 0x868DEC32, 0x7F67875F)
  {
    hide W, Rounds, AbcBlock, AbcStart;
    Rounds16();
    Words16();
    RoundStep(16, Vars(0x20BDD62F, 0x196BEE77, 0x644A3DA5, 0x1181ED99, 0x18C623F9), 0xC2C4C700,
              Vars(0x4E925823, 0x20BDD62F, 0xC65AFB9D, 0x644A3DA5, 0x1181ED99));
    RoundStep(17, Vars(0x4E925823, 0x20BDD62F, 0xC65AFB9D, 0x644A3DA5, 0x1181ED99), 0x00000000,
              Vars(0x82AA6728, 0x4E925823, 0xC82F758B, 0xC65AFB9D, 0x644A3DA5));
    RoundStep(18, Vars(0x82AA6728, 0x4E925823, 0xC82F758B, 0xC65AFB9D, 0x644A3DA5), 0x00000030,
              Vars(0xDC64901D, 0x82AA6728, 0xD3A49608, 0xC82F758B, 0xC65AFB9D));
    RoundStep(19, Vars(0xDC64901D, 0x82AA6728, 0xD3A49608, 0xC82F758B, 0xC65AFB9D), 0x85898E01,
              Vars(0xFD9E1D7D, 0xDC64901D, 0x20AA99CA, 0xD3A49608, 0xC82F758B));
    RoundStep(20, Vars(0xFD9E1D7D, 0xDC64901D, 0x20AA99CA, 0xD3A49608, 0xC82F758B), 0x00000000,
              Vars(0x1A37B0CA, 0xFD9E1D7D, 0x77192407, 0x20AA99CA, 0xD3A49608));
    RoundStep(21, Vars(0x1A37B0CA, 0xFD9E1D7D, 0x77192407, 0x20AA99CA, 0xD3A49608), 0x00000060,
              Vars(0x33A23BFC, 0x1A37B0CA, 0x7F67875F, 0x77192407, 0x20AA99CA));
    RoundStep(22, Vars(0x33A23BFC, 0x1A37B0CA, 0x7F67875F, 0x77192407, 0x20AA99CA), 0x0B131C03,
              Vars(0x21283486, 0x33A23BFC, 0x868DEC32, 0x7F67875F, 0x77192407));
    RoundStep(23, Vars(0x21283486, 0x33A23BFC, 0x868DEC32, 0x7F67875F, 0x77192407), 0x00000030,
              Vars(0xD541F12D, 0x21283486, 0x0CE88EFF, 0x868DEC32, 0x7F67875F));
  }

  lemma {:induction false} Rounds32()
    ensures Rounds(AbcBlock(), AbcStart(), 32)
         == Vars(0x3B845D33, 0x1267B407, 0x717EEBD7, 0xA0DC2D4B, 0xD2AA1365)
  {
    hide W, Rounds, AbcBlock, AbcStart;
    Rounds24();
    Words24();
    RoundStep(24, Vars(0xD541F12D, 0x21283486, 0x0CE88EFF, 0x868DEC32, 0x7F67875F), 0x85898EC1,
              Vars(0xC7567DC6, 0xD541F12D, 0x884A0D21, 0x0CE88EFF, 0x868DEC32));
    RoundStep(25, Vars(0xC7567DC6, 0xD541F12D, 0x884A0D21, 0x0CE88EFF, 0x868DEC32), 0x16263806,
              Vars(0x48413BA4, 0xC7567DC6, 0x75507C4B, 0x884A0D21, 0x0CE88EFF));
    RoundStep(26, Vars(0x48413BA4, 0xC7567DC6, 0x75507C4B, 0x884A0D21, 0x0CE88EFF), 0x00000000,
              Vars(0xBE35FBD5, 0x48413BA4, 0xB1D59F71, 0x75507C4B, 0x884A0D21));
    RoundStep(27, Vars(0xBE35FBD5, 0x48413BA4, 0xB1D59F71, 0x75507C4B, 0x884A0D21), 0x00000180,
              Vars(0x4AA84D97, 0xBE35FBD5, 0x12104EE9, 0xB1D59F71, 0x75507C4B));
    RoundStep(28, Vars(0x4AA84D97, 0xBE35FBD5, 0x12104EE9, 0xB1D59F71, 0x75507C4B), 0x2C4C700C,
              Vars(0x8370B52E, 0x4AA84D97, 0x6F8D7EF5, 0x12104EE9, 0xB1D59F71));
    RoundStep(29, Vars(0x8370B52E, 0x4AA84D97, 0x6F8D7EF5, 0x12104EE9, 0xB1D59F71), 0x000000F0,
              Vars(0xC5FBAF5D, 0x8370B52E, 0xD2AA1365, 0x6F8D7EF5, 0x12104EE9));
    RoundStep(30, Vars(0xC5FBAF5D, 0x8370B52E, 0xD2AA1365, 0x6F8D7EF5, 0x12104EE9), 0x93AFB507,
              Vars(0x1267B407, 0xC5FBAF5D, 0xA0DC2D4B, 0xD2AA1365, 0x6F8D7EF5));
    RoundStep(31, Vars(0x1267B407, 0xC5FBAF5D, 0xA0DC2D4B, 0xD2AA1365, 0x6F8D7EF5), 0x5898E048,
              Vars(0x3B845D33, 0x1267B407, 0x717EEBD7, 0xA0DC2D4B, 0xD2AA1365));
  }

  lemma {:induction false} Rounds40()
    ensures Rounds(AbcBlock(), AbcStart(), 40)
         == Vars(0x32DE1CBA, 0x4C986405, 0xF718E5CF, 0x03D447F6, 0xF72EEC32)
  {
    hide W, Rounds, AbcBlock, AbcStart;
    Rounds32();
    Words32();
    RoundStep(32, Vars(0x3B845D33, 0x1267B407, 0x717EEBD7, 0xA0DC2D4B, 0xD2AA1365), 0x8E9A9202,
              Vars(0x046FAA0A, 0x3B845D33, 0xC499ED01, 0x717EEBD7, 0xA0DC2D4B));
    RoundStep(33, Vars(0x046FAA0A, 0x3B845D33, 0xC499ED01, 0x717EEBD7, 0xA0DC2D4B), 0x00000600,
              Vars(0x2C0EBC11, 0x046FAA0A, 0xCEE1174C, 0xC499ED01, 0x717EEBD7));
    RoundStep(34, Vars(0x2C0EBC11, 0x046FAA0A, 0xCEE1174C, 0xC499ED01, 0x717EEBD7), 0xB131C0F0,
              Vars(0x21796AD4, 0x2C0EBC11, 0x811BEA82, 0xCEE1174C, 0xC499ED01));
    RoundStep(35, Vars(0x21796AD4, 0x2C0EBC11, 0x811BEA82, 0xCEE1174C, 0xC499ED01), 0x16263BC6,
              Vars(0xDCBBB0CB, 0x21796AD4, 0x4B03AF04, 0x811BEA82, 0xCEE1174C));
    RoundStep(36, Vars(0xDCBBB0CB, 0x21796AD4, 0x4B03AF04, 0x811BEA82, 0xCEE1174C), 0x4EBED41E,
              Vars(0x0F511FD8, 0xDCBBB0CB, 0x085E5AB5, 0x4B03AF04, 0x811BEA82));
    RoundStep(37, Vars(0x0F511FD8, 0xDCBBB0CB, 0x085E5AB5, 0x4B03AF04, 0x811BEA82), 0x626380A1,
              Vars(0xDC63973F, 0x0F511FD8, 0xF72EEC32, 0x085E5AB5, 0x4B03AF04));
    RoundStep(38, Vars(0xDC63973F, 0x0F511FD8, 0xF72EEC32, 0x085E5AB5, 0x4B03AF04), 0x16263806,
              Vars(0x4C986405, 0xDC63973F, 0x03D447F6, 0xF72EEC32, 0x085E5AB5));
    RoundStep(39, Vars(0x4C986405, 0xDC63973F, 0x03D447F6, 0xF72EEC32, 0x085E5AB5), 0x000018C0,
              Vars(0x32DE1CBA, 0x4C986405, 0xF718E5CF, 0x03D447F6, 0xF72EEC32));
  }

  lemma {:induction false} Rounds48()
    ensures Rounds(AbcBlock(), AbcStart(), 48)
         == Vars(0xBEAD02CA, 0xA01B846C, 0x8714787C, 0x503CA382, 0xFB86C6AB)
  {
    hide W, Rounds, AbcBlock, AbcStart;
    Rounds40();
    Words40();
    RoundStep(40, Vars(0x32DE1CBA, 0x4C986405, 0xF718E5CF, 0x03D447F6, 0xF72EEC32), 0xD2E138C4,
              Vars(0xFC87DEDF, 0x32DE1CBA, 0x53261901, 0xF718E5CF, 0x03D447F6));
    RoundStep(41, Vars(0xFC87DEDF, 0x32DE1CBA, 0x53261901, 0xF718E5CF, 0x03D447F6), 0x00000F00,
              Vars(0x970A0D5C, 0xFC87DEDF, 0x8CB7872E, 0x53261901, 0xF718E5CF));
    RoundStep(42, Vars(0x970A0D5C, 0xFC87DEDF, 0x8CB7872E, 0x53261901, 0xF718E5CF), 0x3AFB5079,
              Vars(0x7F193DC5, 0x970A0D5C, 0xFF21F7B7, 0x8CB7872E, 0x53261901));
    RoundStep(43, Vars(0x7F193DC5, 0x970A0D5C, 0xFF21F7B7, 0x8CB7872E, 0x53261901), 0x898E04E5,
              Vars(0xEE1B1AAF, 0x7F193DC5, 0x25C28357, 0xFF21F7B7, 0x8CB7872E));
    RoundStep(44, Vars(0xEE1B1AAF, 0x7F193DC5, 0x25C28357, 0xFF21F7B7, 0x8CB7872E), 0xE2BA3C2B,
              Vars(0x40F28E09, 0xEE1B1AAF, 0x5FC64F71, 0x25C28357, 0xFF21F7B7));
    RoundStep(45, Vars(0x40F28E09, 0xEE1B1AAF, 0x5FC64F71, 0x25C28357, 0xFF21F7B7), 0x000060C0,
              Vars(0x1C51E1F2, 0x40F28E09, 0xFB86C6AB, 0x5FC64F71, 0x25C28357));
    RoundStep(46, Vars(0x1C51E1F2, 0x40F28E09, 0xFB86C6AB, 0x5FC64F71, 0x25C28357), 0x053A37CD,
              Vars(0xA01B846C, 0x1C51E1F2, 0x503CA382, 0xFB86C6AB, 0x5FC64F71));
    RoundStep(47, Vars(0xA01B846C, 0x1C51E1F2, 0x503CA382, 0xFB86C6AB, 0x5FC64F71), 0x74458547,
              Vars(0xBEAD02CA, 0xA01B846C, 0x8714787C, 0x503CA382, 0xFB86C6AB));
  }

  lemma {:induction false} Rounds56()
    ensures Rounds(AbcBlock(), AbcStart(), 56)
         == Vars(0x5E6456AF, 0x7B71F76D, 0x09FA7C76, 0x792410DB, 0x8E11EB59)
  {
    hide W, Rounds, AbcBlock, AbcStart;
    Rounds48();
    Words48();
    RoundStep(48, Vars(0xBEAD02CA, 0xA01B846C, 0x8714787C, 0x503CA382, 0xFB86C6AB), 0xDA9415ED,
              Vars(0xBAF39337, 0xBEAD02CA, 0x2806E11B, 0x8714787C, 0x503CA382));
    RoundStep(49, Vars(0xBAF39337, 0xBEAD02CA, 0x2806E11B, 0x8714787C, 0x503CA382), 0x26380A16,
              Vars(0x120731C5, 0xBAF39337, 0xAFAB40B2, 0x2806E11B, 0x8714787C));
    RoundStep(50, Vars(0x120731C5, 0xBAF39337, 0xAFAB40B2, 0x2806E11B, 0x8714787C), 0x626383A1,
              Vars(0x641DB2CE, 0x120731C5, 0xEEBCE4CD, 0xAFAB40B2, 0x2806E11B));
    RoundStep(51, Vars(0x641DB2CE, 0x120731C5, 0xEEBCE4CD, 0xAFAB40B2, 0x2806E11B), 0x4EBF54DE,
              Vars(0x3847AD66, 0x641DB2CE, 0x4481CC71, 0xEEBCE4CD, 0xAFAB40B2));
    RoundStep(52, Vars(0x3847AD66, 0x641DB2CE, 0x4481CC71, 0xEEBCE4CD, 0xAFAB40B2), 0x3835B44B,
              Vars(0xE490436D, 0x3847AD66, 0x99076CB3, 0x4481CC71, 0xEEBCE4CD));
    RoundStep(53, Vars(0xE490436D, 0x3847AD66, 0x99076CB3, 0x4481CC71, 0xEEBCE4CD), 0x0000F600,
              Vars(0x27E9F1D8, 0xE490436D, 0x8E11EB59, 0x99076CB3, 0x4481CC71));
    RoundStep(54, Vars(0x27E9F1D8, 0xE490436D, 0x8E11EB59, 0x99076CB3, 0x4481CC71), 0x1E84C7A3,
              Vars(0x7B71F76D, 0x27E9F1D8, 0x792410DB, 0x8E11EB59, 0x99076CB3));
    RoundStep(55, Vars(0x7B71F76D, 0x27E9F1D8, 0x792410DB, 0x8E11EB59, 0x99076CB3), 0x98E04D98,
              Vars(0x5E6456AF, 0x7B71F76D, 0x09FA7C76, 0x792410DB, 0x8E11EB59));
  }

  lemma {:induction false} Rounds64()
    ensures Rounds(AbcBlock(), AbcStart(), 64)
         == Vars(0x6B61C9E1, 0xB66C020B, 0x9523272C, 0xF5D5B051, 0x8FD4B796)
  {
    hide W, Rounds, AbcBlock, AbcStart;
    Rounds56();
    Words56();
    RoundStep(56, Vars(0x5E6456AF, 0x7B71F76D, 0x09FA7C76, 0x792410DB, 0x8E11EB59), 0x651D16A0,
              Vars(0xC846093F, 0x5E6456AF, 0x5EDC7DDB, 0x09FA7C76, 0x792410DB));
    RoundStep(57, Vars(0xC846093F, 0x5E6456AF, 0x5EDC7DDB, 0x09FA7C76, 0x792410DB), 0x62658CA1,
              Vars(0xD262FF50, 0xC846093F, 0xD79915AB, 0x5EDC7DDB, 0x09FA7C76));
    RoundStep(58, Vars(0xD262FF50, 0xC846093F, 0xD79915AB, 0x5EDC7DDB, 0x09FA7C76), 0x458544D6,
              Vars(0x09D785FD, 0xD262FF50, 0xF211824F, 0xD79915AB, 0x5EDC7DDB));
    RoundStep(59, Vars(0x09D785FD, 0xD262FF50, 0xF211824F, 0xD79915AB, 0x5EDC7DDB), 0x44584CB7,
              Vars(0x3F52DE5A, 0x09D785FD, 0x3498BFD4, 0xF211824F, 0xD79915AB));
    RoundStep(60, Vars(0x3F52DE5A, 0x09D785FD, 0x3498BFD4, 0xF211824F, 0xD79915AB), 0x7BA06619,
              Vars(0xD756C147, 0x3F52DE5A, 0x4275E17F, 0x3498BFD4, 0xF211824F));
    RoundStep(61, Vars(0xD756C147, 0x3F52DE5A, 0x4275E17F, 0x3498BFD4, 0xF211824F), 0x6380AEA2,
              Vars(0x548C9CB2, 0xD756C147, 0x8FD4B796, 0x4275E17F, 0x3498BFD4));
    RoundStep(62, Vars(0x548C9CB2, 0xD756C147, 0x8FD4B796, 0x4275E17F, 0x3498BFD4), 0x0AE55269,
              Vars(0xB66C020B, 0x548C9CB2, 0xF5D5B051, 0x8FD4B796, 0x4275E17F));
    RoundStep(63, Vars(0xB66C020B, 0x548C9CB2, 0xF5D5B051, 0x8FD4B796, 0x4275E17F), 0x627B49A1,
              Vars(0x6B61C9E1, 0xB66C020B, 0x9523272C, 0xF5D5B051, 0x8FD4B796));
  }

  lemma {:induction false} Rounds72()
    ensures Rounds(AbcBlock(), AbcStart(), 72)
         == Vars(0x39859DE7, 0xC199F8C7, 0x8FC96230, 0x125C24F0, 0xDE37534A)
  {
    hide W, Rounds, AbcBlock, AbcStart;
    Rounds64();
    Words64();
    RoundStep(64, Vars(0x6B61C9E1, 0xB66C020B, 0x9523272C, 0xF5D5B051, 0x8FD4B796), 0x7CD45C9D,
              Vars(0x19DFA7AC, 0x6B61C9E1, 0xED9B0082, 0x9523272C, 0xF5D5B051));
    RoundStep(65, Vars(0x19DFA7AC, 0x6B61C9E1, 0xED9B0082, 0x9523272C, 0xF5D5B051), 0x000F0000,
              Vars(0x101655F9, 0x19DFA7AC, 0x5AD87278, 0xED9B0082, 0x9523272C));
    RoundStep(66, Vars(0x101655F9, 0x19DFA7AC, 0x5AD87278, 0xED9B0082, 0x9523272C), 0xFB50753A,
              Vars(0x0C3DF2B4, 0x101655F9, 0x0677E9EB, 0x5AD87278, 0xED9B0082));
    RoundStep(67, Vars(0x0C3DF2B4, 0x101655F9, 0x0677E9EB, 0x5AD87278, 0xED9B0082), 0xEC6765E8,
              Vars(0x78DD4D2B, 0x0C3DF2B4, 0x4405957E, 0x0677E9EB, 0x5AD87278));
    RoundStep(68, Vars(0x78DD4D2B, 0x0C3DF2B4, 0x4405957E, 0x0677E9EB, 0x5AD87278), 0xBA3C2BE2,
              Vars(0x497093C0, 0x78DD4D2B, 0x030F7CAD, 0x4405957E, 0x0677E9EB));
    RoundStep(69, Vars(0x497093C0, 0x78DD4D2B, 0x030F7CAD, 0x4405957E, 0x0677E9EB), 0x0060C000,
              Vars(0x3F2588C2, 0x497093C0, 0xDE37534A, 0x030F7CAD, 0x4405957E));
    RoundStep(70, Vars(0x3F2588C2, 0x497093C0, 0xDE37534A, 0x030F7CAD, 0x4405957E), 0x3A37CD05,
              Vars(0xC199F8C7, 0x3F2588C2, 0x125C24F0, 0xDE37534A, 0x030F7CAD));
    RoundStep(71, Vars(0xC199F8C7, 0x3F2588C2, 0x125C24F0, 0xDE37534A, 0x030F7CAD), 0x458546F4,
              Vars(0x39859DE7, 0xC199F8C7, 0x8FC96230, 0x125C24F0, 0xDE37534A));
  }

  lemma {:induction false} Rounds80()
    ensures Rounds(AbcBlock(), AbcStart(), 80)
         == Vars(0x42541B35, 0x5738D5E1, 0x21834873, 0x681E6DF6, 0xD8FDF6AD)
  {
    hide W, Rounds, AbcBlock, AbcStart;
    Rounds72();
    Words72();
    RoundStep(72, Vars(0x39859DE7, 0xC199F8C7, 0x8FC96230, 0x125C24F0, 0xDE37534A), 0xB8599DD6,
              Vars(0xEDB42DE4, 0x39859DE7, 0xF0667E31, 0x8FC96230, 0x125C24F0));
    RoundStep(73, Vars(0xEDB42DE4, 0x39859DE7, 0xF0667E31, 0x8FC96230, 0x125C24F0), 0x380A1A26,
              Vars(0x11793F6F, 0xEDB42DE4, 0xCE616779, 0xF0667E31, 0x8FC96230));
    RoundStep(74, Vars(0x11793F6F, 0xEDB42DE4, 0xCE616779, 0xF0667E31, 0x8FC96230), 0x01E02203,
              Vars(0x5EE76897, 0x11793F6F, 0x3B6D0B79, 0xCE616779, 0xF0667E31));
    RoundStep(75, Vars(0x5EE76897, 0x11793F6F, 0x3B6D0B79, 0xCE616779, 0xF0667E31), 0xE7CC3456,
              Vars(0x63F7DAB7, 0x5EE76897, 0xC45E4FDB, 0x3B6D0B79, 0xCE616779));
    RoundStep(76, Vars(0x63F7DAB7, 0x5EE76897, 0xC45E4FDB, 0x3B6D0B79, 0xCE616779), 0xE6E60B69,
              Vars(0xA079B7D9, 0x63F7DAB7, 0xD7B9DA25, 0xC45E4FDB, 0x3B6D0B79));
    RoundStep(77, Vars(0xA079B7D9, 0x63F7DAB7, 0xD7B9DA25, 0xC45E4FDB, 0x3B6D0B79), 0x00F60A00,
              Vars(0x860D21CC, 0xA079B7D9, 0xD8FDF6AD, 0xD7B9DA25, 0xC45E4FDB));
    RoundStep(78, Vars(0x860D21CC, 0xA079B7D9, 0xD8FDF6AD, 0xD7B9DA25, 0xC45E4FDB), 0x5795EF4F,
              Vars(0x5738D5E1, 0x860D21CC, 0x681E6DF6, 0xD8FDF6AD, 0xD7B9DA25));
    RoundStep(79, Vars(0x5738D5E1, 0x860D21CC, 0x681E6DF6, 0xD8FDF6AD, 0xD7B9DA25), 0x822E0879,
              Vars(0x42541B35, 0x5738D5E1, 0x21834873, 0x681E6DF6, 0xD8FDF6AD));
  }

  lemma {:induction false} AbcCompressed()
    ensures |InitialHash()| == 5 && Compress(InitialHash(), AbcBlock()) == [0xA9993E36, 0x4706816A, 0xBA3E2571, 0x7850C26C, 0x9CD0D89D]
  {
    hide W, Rounds, AbcBlock;
    Rounds80();
    assert InitialHash() == [0x67452301, 0xEFCDAB89, 0x98BADCFE, 0x10325476, 0xC3D2E1F0];
  }

  // ---------------------------------------------------------------------------
  // Bytes and words
  // ---------------------------------------------------------------------------

  const Abc: seq<byte> := [97, 98, 99]

  lemma {:induction false} AbcPadded()
    ensures Padded(Abc) == [97, 98, 99, 0x80] + Zeros(52) + [0, 0, 0, 0, 0, 0, 0, 24]
  {
    assert ZeroCount(|Abc|) == 52;
    assert LengthBytes(24) == [0, 0, 0, 0, 0, 0, 0, 24];
  }

  lemma {:induction false} FourBytes(p: seq<byte>, i: nat)
    requires 4 * i + 4 <= |p|
    ensures p[4 * i..4 * i + 4] == [p[4 * i], p[4 * i + 1], p[4 * i + 2], p[4 * i + 3]]
  {
  }

  lemma {:induction false} AbcLoads()
    ensures LoadWord(BigEndian, [97, 98, 99, 0x80]) == 0x61626380
    ensures LoadWord(BigEndian, [0, 0, 0, 0]) == 0
    ensures LoadWord(BigEndian, [0, 0, 0, 24]) == 0x18
  {
  }

  lemma {:induction false} AbcWords()
    ensures |Padded(Abc)| == 64 && LoadWords(BigEndian, Padded(Abc)) == AbcBlock()
  {
    AbcPadded();
    AbcLoads();
    hide Padded, LoadWord;
    var p, w := Padded(Abc), LoadWords(BigEndian, Padded(Abc));
    forall i | 0 <= i < 16
      ensures w[i] == AbcBlock()[i]
    {
      FourBytes(p, i);
      assert p[4 * i..4 * i + 4] == if i == 0 then [97, 98, 99, 0x80] else if i == 15 then [0, 0, 0, 24] else [0, 0, 0, 0];
    }
  }

  lemma {:induction false} OneBlock(load: Loader, p: seq<byte>)
    requires |p| == 64
    ensures Sized(Algorithm1(load)) && Fold(Algorithm1(load), p) == Compress(InitialHash(), LoadWords(load, p))
  {
    Algorithm1Sized(load);
    hide LoadWords, Compress, InitialHash;
    assert p[..0] == [] && p[0..] == p;
    assert Fold(Algorithm1(load), []) == InitialHash();
  }

  /** Every further block goes on from the hash value of those in front of it, word by word. */
  lemma {:induction false} NextBlock(load: Loader, p: seq<byte>, b: seq<byte>, w: seq<Word>)
    requires |p| % 64 == 0 && |b| == 64 && |w| == 16
    requires forall i :: 0 <= i < 16 ==> w[i] == LoadWord(load, [b[4 * i], b[4 * i + 1], b[4 * i + 2], b[4 * i + 3]])
    ensures Sized(Algorithm1(load)) && Fold(Algorithm1(load), p + b) == Compress(Fold(Algorithm1(load), p), w)
  {
    hide LoadWord, LoadWords, Compress, InitialHash, Fold;
    Algorithm1Sized(load);
    BlockWords(load, b, w);
    FoldNext(Algorithm1(load), p, b);
  }

  lemma {:induction false} FoldNext(alg: Algorithm<Word>, p: seq<byte>, b: seq<byte>)
    requires Sized(alg) && |p| % 64 == 0 && |b| == 64
    ensures Fold(alg, p + b) == alg.transform(Fold(alg, p), b)
  {
    var m := p + b;
    assert m[..|m| - 64] == p && m[|m| - 64..] == b;
  }

  lemma {:induction false} BlockWords(load: Loader, b: seq<byte>, w: seq<Word>)
    requires |b| == 64 && |w| == 16
    requires forall i :: 0 <= i < 16 ==> w[i] == LoadWord(load, [b[4 * i], b[4 * i + 1], b[4 * i + 2], b[4 * i + 3]])
    ensures LoadWords(load, b) == w
  {
    hide LoadWord;
    forall i | 0 <= i < 16
      ensures LoadWords(load, b)[i] == w[i]
    {
      FourBytes(b, i);
    }
  }

  lemma {:induction false} NextBytes(h: seq<Word>, k: nat)
    requires k < |h|
    ensures var alg := Algorithm1(BigEndian);
      DigestBytes(alg, h, 4 * k + 4)
      == DigestBytes(alg, h, 4 * k) + [ByteAt(h[k], 0), ByteAt(h[k], 1), ByteAt(h[k], 2), ByteAt(h[k], 3)]
  {
    hide ByteAt, HashBlock, InitialHash;
    var alg := Algorithm1(BigEndian);
    assert DigestBytes(alg, h, 4 * k + 1) == DigestBytes(alg, h, 4 * k) + [ByteAt(h[k], 0)];
    assert DigestBytes(alg, h, 4 * k + 2) == DigestBytes(alg, h, 4 * k + 1) + [ByteAt(h[k], 1)];
    assert DigestBytes(alg, h, 4 * k + 3) == DigestBytes(alg, h, 4 * k + 2) + [ByteAt(h[k], 2)];
  }

  lemma {:induction false} AbcBytes()
    ensures [ByteAt(0xA9993E36, 0), ByteAt(0xA9993E36, 1), ByteAt(0xA9993E36, 2), ByteAt(0xA9993E36, 3)] == [0xA9, 0x99, 0x3E, 0x36]
    ensures [ByteAt(0x4706816A, 0), ByteAt(0x4706816A, 1), ByteAt(0x4706816A, 2), ByteAt(0x4706816A, 3)] == [0x47, 0x06, 0x81, 0x6A]
    ensures [ByteAt(0xBA3E2571, 0), ByteAt(0xBA3E2571, 1), ByteAt(0xBA3E2571, 2), ByteAt(0xBA3E2571, 3)] == [0xBA, 0x3E, 0x25, 0x71]
    ensures [ByteAt(0x7850C26C, 0), ByteAt(0x7850C26C, 1), ByteAt(0x7850C26C, 2), ByteAt(0x7850C26C, 3)] == [0x78, 0x50, 0xC2, 0x6C]
    ensures [ByteAt(0x9CD0D89D, 0), ByteAt(0x9CD0D89D, 1), ByteAt(0x9CD0D89D, 2), ByteAt(0x9CD0D89D, 3)] == [0x9C, 0xD0, 0xD8, 0x9D]
  {
  }

  lemma {:induction false} AbcOutput(h: seq<Word>)
    requires h == [0xA9993E36, 0x4706816A, 0xBA3E2571, 0x7850C26C, 0x9CD0D89D]
    ensures DigestBytes(Algorithm1(BigEndian), h, 20)
         == [0xA9, 0x99, 0x3E, 0x36] + [0x47, 0x06, 0x81, 0x6A] + [0xBA, 0x3E, 0x25, 0x71] + [0x78, 0x50, 0xC2, 0x6C]
            + [0x9C, 0xD0, 0xD8, 0x9D]
  {
    hide ByteAt, HashBlock, InitialHash, Algorithm1;
    AbcBytes();
    assert DigestBytes(Algorithm1(BigEndian), h, 0) == [];
    hide DigestBytes;
    NextBytes(h, 0);
    NextBytes(h, 1);
    NextBytes(h, 2);
    NextBytes(h, 3);
    NextBytes(h, 4);
  }

  /** The digest of "abc". */
  lemma {:induction false} AbcDigest(m: seq<byte>)
    requires m == [97, 98, 99]
    ensures Sized(Algorithm1(BigEndian))
    ensures Digest(Algorithm1(BigEndian), m)
         == [0xA9, 0x99, 0x3E, 0x36] + [0x47, 0x06, 0x81, 0x6A] + [0xBA, 0x3E, 0x25, 0x71] + [0x78, 0x50, 0xC2, 0x6C]
            + [0x9C, 0xD0, 0xD8, 0x9D]
  {
    hide Padded, LoadWords, Compress, InitialHash, ByteAt, HashBlock, Fold, AbcBlock, DigestBytes, Algorithm1, Sized;
    AbcWords();
    AbcCompressed();
    OneBlock(BigEndian, Padded(m));
    AbcOutput(Compress(InitialHash(), AbcBlock()));
  }

  /** Run over the message in any pieces, the program gives it. */
  method HashAbc(pieces: seq<seq<byte>>) returns (digest: seq<byte>)
    requires Fitting(pieces) && Joined(pieces) == [97, 98, 99]
    ensures digest
         == [0xA9, 0x99, 0x3E, 0x36] + [0x47, 0x06, 0x81, 0x6A] + [0xBA, 0x3E, 0x25, 0x71] + [0x78, 0x50, 0xC2, 0x6C]
            + [0x9C, 0xD0, 0xD8, 0x9D]
  {
    hide *;
    AbcDigest(Joined(pieces));
    digest := HashMessage(BigEndian, pieces);
  }

  /** What bytes are worth, the most significant first. */
  function Value(l: seq<byte>): nat
    decreases |l|
  {
    if l == [] then 0 else 256 * Value(l[..|l| - 1]) + l[|l| - 1]
  }

  lemma {:induction false} ValueStep(l: seq<byte>, k: nat)
    requires k < |l|
    ensures Value(l[..k + 1]) == 256 * Value(l[..k]) + l[k]
  {
    assert l[..k + 1][..k] == l[..k];
  }

  lemma {:induction false} ValueNext(l: seq<byte>, k: nat, q: nat)
    requires k < |l| && Value(l[..k]) == q / 256 && l[k] == q % 256
    ensures Value(l[..k + 1]) == q
  {
    ValueStep(l, k);
  }

  lemma {:induction false} Quotients(n: nat)
    requires n < 0x1_0000_0000_0000_0000
    ensures n / 0x100_0000_0000_0000 / 256 == 0
    ensures n / 0x1_0000_0000_0000 / 256 == n / 0x100_0000_0000_0000
    ensures n / 0x100_0000_0000 / 256 == n / 0x1_0000_0000_0000
    ensures n / 0x1_0000_0000 / 256 == n / 0x100_0000_0000
    ensures n / 0x100_0000 / 256 == n / 0x1_0000_0000
    ensures n / 0x1_0000 / 256 == n / 0x100_0000
    ensures n / 0x100 / 256 == n / 0x1_0000
    ensures n / 256 == n / 0x100
  {
  }

  /** The length field is the length. */
  lemma {:induction false} LengthIsLength(n: nat)
    requires n < 0x1_0000_0000_0000_0000
    ensures Value(LengthBytes(n)) == n
  {
    hide Value, LengthBytes;
    var l := LengthBytes(n);
    assert l[..8] == l;
    LengthDigits(n, l);
  }

  lemma {:induction false} HighDigits(n: nat, l: seq<byte>)
    requires n < 0x1_0000_0000_0000_0000 && l == LengthBytes(n)
    ensures Value(l[..4]) == n / 0x1_0000_0000
  {
    assert l[..0] == [];
    NoValue();
    Quotients(n);
    hide Value;
    ValueNext(l, 0, n / 0x100_0000_0000_0000);
    ValueNext(l, 1, n / 0x1_0000_0000_0000);
    ValueNext(l, 2, n / 0x100_0000_0000);
    ValueNext(l, 3, n / 0x1_0000_0000);
  }

  lemma {:induction false} LengthDigits(n: nat, l: seq<byte>)
    requires n < 0x1_0000_0000_0000_0000 && l == LengthBytes(n)
    ensures Value(l[..8]) == n
  {
    hide Value;
    HighDigits(n, l);
    Quotients(n);
    ValueNext(l, 4, n / 0x100_0000);
    ValueNext(l, 5, n / 0x1_0000);
    ValueNext(l, 6, n / 0x100);
    ValueNext(l, 7, n);
  }

  lemma {:induction false} NoValue()
    ensures Value([]) == 0
  {
  }

  /** The other byte order reads the four bytes backwards. */
  lemma LittleIsBackwards(a: byte, b: byte, c: byte, d: byte)
    ensures LoadWord(LittleEndian, [a, b, c, d]) == LoadWord(BigEndian, [d, c, b, a])
  {
  }
}
