/** The digest of the three letters abc, appendix B.1 of FIPS 180-2, round by round. */
module Sha256Example {
  import opened Numbers
  import opened Words
  import opened Sha256

  const ABC: Bits := [0x61, 0x62, 0x63]

  /** The one padded block. */
  const PADDED: Block := [0x61, 0x62, 0x63, 0x80] + Zeros(59) + [0x18]

  lemma PaddingOfExample()
    ensures ABC + Padding(3) == PADDED
  {
    LengthOfExample();
    assert Zeros(52) + Zeros(7) == Zeros(59);
  }

  lemma LengthOfExample()
    ensures BigEndian(24, 8) == Zeros(7) + [0x18]
  {
    hide BigEndian;
    LastByteFirst(24, 8);
    ZeroNumber(7);
  }

  lemma LastByteFirst(n: nat, len: nat)
    requires len > 0
    ensures BigEndian(n, len) == BigEndian(n / 256, len - 1) + [LowByte(n)]
  {
  }

  lemma {:induction false} ZeroNumber(len: nat)
    ensures BigEndian(0, len) == Zeros(len)
  {
    if len > 0 {
      ZeroNumber(len - 1);
    }
  }

  // ---- The message schedule ----

  ghost predicate Scheduled(t: nat, w: Word) {
    W(PADDED, t) == w
  }

  lemma Schedule(t: nat, w2: Word, w7: Word, w15: Word, w16: Word, w: Word)
    requires t >= 16 && Scheduled(t - 2, w2) && Scheduled(t - 7, w7) && Scheduled(t - 15, w15) && Scheduled(t - 16, w16)
    requires Sum4(Sig1(w2), w7, Sig0(w15), w16) == w
    ensures Scheduled(t, w)
  {
    hide Sig0, Sig1, Sum4;
  }

  lemma Words0()
    ensures Scheduled(0, 0x61626380) && Scheduled(1, 0x00000000) && Scheduled(2, 0x00000000) && Scheduled(3, 0x00000000)
    ensures Scheduled(4, 0x00000000) && Scheduled(5, 0x00000000) && Scheduled(6, 0x00000000) && Scheduled(7, 0x00000000)
    ensures Scheduled(8, 0x00000000) && Scheduled(9, 0x00000000) && Scheduled(10, 0x00000000) && Scheduled(11, 0x00000000)
    ensures Scheduled(12, 0x00000000) && Scheduled(13, 0x00000000) && Scheduled(14, 0x00000000) && Scheduled(15, 0x00000018)
  {
  }

  lemma Words1()
    ensures Scheduled(16, 0x61626380) && Scheduled(17, 0x000f0000) && Scheduled(18, 0x7da86405) && Scheduled(19, 0x600003c6)
    ensures Scheduled(20, 0x3e9d7b78) && Scheduled(21, 0x0183fc00) && Scheduled(22, 0x12dcbfdb) && Scheduled(23, 0xe2e2c38e)
  {
    hide Scheduled;
    Words0();
    Schedule(16, 0x00000000, 0x00000000, 0x00000000, 0x61626380, 0x61626380);
    Schedule(17, 0x00000018, 0x00000000, 0x00000000, 0x00000000, 0x000f0000);
    Schedule(18, 0x61626380, 0x00000000, 0x00000000, 0x00000000, 0x7da86405);
    Schedule(19, 0x000f0000, 0x00000000, 0x00000000, 0x00000000, 0x600003c6);
    Schedule(20, 0x7da86405, 0x00000000, 0x00000000, 0x00000000, 0x3e9d7b78);
    Schedule(21, 0x600003c6, 0x00000000, 0x00000000, 0x00000000, 0x0183fc00);
    Schedule(22, 0x3e9d7b78, 0x00000018, 0x00000000, 0x00000000, 0x12dcbfdb);
    Schedule(23, 0x0183fc00, 0x61626380, 0x00000000, 0x00000000, 0xe2e2c38e);
  }

  lemma Words2()
    ensures Scheduled(24, 0xc8215c1a) && Scheduled(25, 0xb73679a2) && Scheduled(26, 0xe5bc3909) && Scheduled(27, 0x32663c5b)
    ensures Scheduled(28, 0x9d209d67) && Scheduled(29, 0xec8726cb) && Scheduled(30, 0x702138a4) && Scheduled(31, 0xd3b7973b)
  {
    hide Scheduled;
    Words0();
    Words1();
    Schedule(24, 0x12dcbfdb, 0x000f0000, 0x00000000, 0x00000000, 0xc8215c1a);
    Schedule(25, 0xe2e2c38e, 0x7da86405, 0x00000000, 0x00000000, 0xb73679a2);
    Schedule(26, 0xc8215c1a, 0x600003c6, 0x00000000, 0x00000000, 0xe5bc3909);
    Schedule(27, 0xb73679a2, 0x3e9d7b78, 0x00000000, 0x00000000, 0x32663c5b);
    Schedule(28, 0xe5bc3909, 0x0183fc00, 0x00000000, 0x00000000, 0x9d209d67);
    Schedule(29, 0x32663c5b, 0x12dcbfdb, 0x00000000, 0x00000000, 0xec8726cb);
    Schedule(30, 0x9d209d67, 0xe2e2c38e, 0x00000018, 0x00000000, 0x702138a4);
    Schedule(31, 0xec8726cb, 0xc8215c1a, 0x61626380, 0x00000018, 0xd3b7973b);
  }

  lemma Words3()
    ensures Scheduled(32, 0x93f5997f) && Scheduled(33, 0x3b68ba73) && Scheduled(34, 0xaff4ffc1) && Scheduled(35, 0xf10a5c62)
    ensures Scheduled(36, 0x0a8b3996) && Scheduled(37, 0x72af830a) && Scheduled(38, 0x9409e33e) && Scheduled(39, 0x24641522)
  {
    hide Scheduled;
    Words1();
    Words2();
    Schedule(32, 0x702138a4, 0xb73679a2, 0x000f0000, 0x61626380, 0x93f5997f);
    Schedule(33, 0xd3b7973b, 0xe5bc3909, 0x7da86405, 0x000f0000, 0x3b68ba73);
    Schedule(34, 0x93f5997f, 0x32663c5b, 0x600003c6, 0x7da86405, 0xaff4ffc1);
    Schedule(35, 0x3b68ba73, 0x9d209d67, 0x3e9d7b78, 0x600003c6, 0xf10a5c62);
    Schedule(36, 0xaff4ffc1, 0xec8726cb, 0x0183fc00, 0x3e9d7b78, 0x0a8b3996);
    Schedule(37, 0xf10a5c62, 0x702138a4, 0x12dcbfdb, 0x0183fc00, 0x72af830a);
    Schedule(38, 0x0a8b3996, 0xd3b7973b, 0xe2e2c38e, 0x12dcbfdb, 0x9409e33e);
    Schedule(39, 0x72af830a, 0x93f5997f, 0xc8215c1a, 0xe2e2c38e, 0x24641522);
  }

  lemma Words4()
    ensures Scheduled(40, 0x9f47bf94) && Scheduled(41, 0xf0a64f5a) && Scheduled(42, 0x3e246a79) && Scheduled(43, 0x27333ba3)
    ensures Scheduled(44, 0x0c4763f2) && Scheduled(45, 0x840abf27) && Scheduled(46, 0x7a290d5d) && Scheduled(47, 0x065c43da)
  {
    hide Scheduled;
    Words2();
    Words3();
    Schedule(40, 0x9409e33e, 0x3b68ba73, 0xb73679a2, 0xc8215c1a, 0x9f47bf94);
    Schedule(41, 0x24641522, 0xaff4ffc1, 0xe5bc3909, 0xb73679a2, 0xf0a64f5a);
    Schedule(42, 0x9f47bf94, 0xf10a5c62, 0x32663c5b, 0xe5bc3909, 0x3e246a79);
    Schedule(43, 0xf0a64f5a, 0x0a8b3996, 0x9d209d67, 0x32663c5b, 0x27333ba3);
    Schedule(44, 0x3e246a79, 0x72af830a, 0xec8726cb, 0x9d209d67, 0x0c4763f2);
    Schedule(45, 0x27333ba3, 0x9409e33e, 0x702138a4, 0xec8726cb, 0x840abf27);
    Schedule(46, 0x0c4763f2, 0x24641522, 0xd3b7973b, 0x702138a4, 0x7a290d5d);
    Schedule(47, 0x840abf27, 0x9f47bf94, 0x93f5997f, 0xd3b7973b, 0x065c43da);
  }

  lemma Words5()
    ensures Scheduled(48, 0xfb3e89cb) && Scheduled(49, 0xcc7617db) && Scheduled(50, 0xb9e66c34) && Scheduled(51, 0xa9993667)
    ensures Scheduled(52, 0x84badedd) && Scheduled(53, 0xc21462bc) && Scheduled(54, 0x1487472c) && Scheduled(55, 0xb20f7a99)
  {
    hide Scheduled;
    Words3();
    Words4();
    Schedule(48, 0x7a290d5d, 0xf0a64f5a, 0x3b68ba73, 0x93f5997f, 0xfb3e89cb);
    Schedule(49, 0x065c43da, 0x3e246a79, 0xaff4ffc1, 0x3b68ba73, 0xcc7617db);
    Schedule(50, 0xfb3e89cb, 0x27333ba3, 0xf10a5c62, 0xaff4ffc1, 0xb9e66c34);
    Schedule(51, 0xcc7617db, 0x0c4763f2, 0x0a8b3996, 0xf10a5c62, 0xa9993667);
    Schedule(52, 0xb9e66c34, 0x840abf27, 0x72af830a, 0x0a8b3996, 0x84badedd);
    Schedule(53, 0xa9993667, 0x7a290d5d, 0x9409e33e, 0x72af830a, 0xc21462bc);
    Schedule(54, 0x84badedd, 0x065c43da, 0x24641522, 0x9409e33e, 0x1487472c);
    Schedule(55, 0xc21462bc, 0xfb3e89cb, 0x9f47bf94, 0x24641522, 0xb20f7a99);
  }

  lemma Words6()
    ensures Scheduled(56, 0xef57b9cd) && Scheduled(57, 0xebe6b238) && Scheduled(58, 0x9fe3095e) && Scheduled(59, 0x78bc8d4b)
    ensures Scheduled(60, 0xa43fcf15) && Scheduled(61, 0x668b2ff8) && Scheduled(62, 0xeeaba2cc) && Scheduled(63, 0x12b1edeb)
  {
    hide Scheduled;
    Words4();
    Words5();
    Schedule(56, 0x1487472c, 0xcc7617db, 0xf0a64f5a, 0x9f47bf94, 0xef57b9cd);
    Schedule(57, 0xb20f7a99, 0xb9e66c34, 0x3e246a79, 0xf0a64f5a, 0xebe6b238);
    Schedule(58, 0xef57b9cd, 0xa9993667, 0x27333ba3, 0x3e246a79, 0x9fe3095e);
    Schedule(59, 0xebe6b238, 0x84badedd, 0x0c4763f2, 0x27333ba3, 0x78bc8d4b);
    Schedule(60, 0x9fe3095e, 0xc21462bc, 0x840abf27, 0x0c4763f2, 0xa43fcf15);
    Schedule(61, 0x78bc8d4b, 0x1487472c, 0x7a290d5d, 0x840abf27, 0x668b2ff8);
    Schedule(62, 0xa43fcf15, 0xb20f7a99, 0x065c43da, 0x7a290d5d, 0xeeaba2cc);
    Schedule(63, 0x668b2ff8, 0xef57b9cd, 0xfb3e89cb, 0x065c43da, 0x12b1edeb);
  }

  // ---- The rounds ----

  /** The registers move on, with a new first and a new fifth. */
  function Moved(r: Registers, a: Word, e: Word): Registers {
    Registers(a, r.a, r.b, r.c, e, r.e, r.f, r.g)
  }

  ghost predicate Reached(t: nat, r: Registers)
    requires t <= 64
  {
    Rounds(Loaded(Initial()), PADDED, t) == r
  }

  lemma Turn(t: nat, r: Registers, w: Word, a: Word, e: Word)
    requires t < 64 && Reached(t, r) && Scheduled(t, w) && Round(r, RoundConstant(t), w) == Moved(r, a, e)
    ensures Reached(t + 1, Moved(r, a, e))
  {
    hide Round, RoundConstant, W, Moved;
  }

  lemma Start()
    ensures Reached(0, Registers(0x6a09e667, 0xbb67ae85, 0x3c6ef372, 0xa54ff53a, 0x510e527f, 0x9b05688c, 0x1f83d9ab, 0x5be0cd19))
  {
  }

  lemma Rounds0()
    ensures Reached(8, Registers(0x85a07b5f, 0xe5030380, 0x2b4209f5, 0x04409a6a, 0x0c657a79, 0x9b27a401, 0x714260ad, 0x43ada245))
  {
    Start();
    Words0();
    hide Reached, Scheduled;
    var r0 := Registers(0x6a09e667, 0xbb67ae85, 0x3c6ef372, 0xa54ff53a, 0x510e527f, 0x9b05688c, 0x1f83d9ab, 0x5be0cd19);
    Turn(0, r0, 0x61626380, 0x5d6aebcd, 0xfa2a4622);
    var r1 := Moved(r0, 0x5d6aebcd, 0xfa2a4622);
    Turn(1, r1, 0x00000000, 0x5a6ad9ad, 0x78ce7989);
    var r2 := Moved(r1, 0x5a6ad9ad, 0x78ce7989);
    Turn(2, r2, 0x00000000, 0xc8c347a7, 0xf92939eb);
    var r3 := Moved(r2, 0xc8c347a7, 0xf92939eb);
    Turn(3, r3, 0x00000000, 0xd550f666, 0x24e00850);
    var r4 := Moved(r3, 0xd550f666, 0x24e00850);
    Turn(4, r4, 0x00000000, 0x04409a6a, 0x43ada245);
    var r5 := Moved(r4, 0x04409a6a, 0x43ada245);
    Turn(5, r5, 0x00000000, 0x2b4209f5, 0x714260ad);
    var r6 := Moved(r5, 0x2b4209f5, 0x714260ad);
    Turn(6, r6, 0x00000000, 0xe5030380, 0x9b27a401);
    var r7 := Moved(r6, 0xe5030380, 0x9b27a401);
    Turn(7, r7, 0x00000000, 0x85a07b5f, 0x0c657a79);
  }

  lemma Rounds1()
    ensures Reached(16, Registers(0xb0fa238e, 0xc0645fde, 0xd932eb16, 0x87912990, 0x07590dcd, 0x0b92f20c, 0x745a48de, 0x1e578218))
  {
    Rounds0();
    Words0();
    hide Reached, Scheduled;
    var r0 := Registers(0x85a07b5f, 0xe5030380, 0x2b4209f5, 0x04409a6a, 0x0c657a79, 0x9b27a401, 0x714260ad, 0x43ada245);
    Turn(8, r0, 0x00000000, 0x8e04ecb9, 0x32ca2d8c);
    var r1 := Moved(r0, 0x8e04ecb9, 0x32ca2d8c);
    Turn(9, r1, 0x00000000, 0x8c87346b, 0x1cc92596);
    var r2 := Moved(r1, 0x8c87346b, 0x1cc92596);
    Turn(10, r2, 0x00000000, 0x4798a3f4, 0x436b23e8);
    var r3 := Moved(r2, 0x4798a3f4, 0x436b23e8);
    Turn(11, r3, 0x00000000, 0xf71fc5a9, 0x816fd6e9);
    var r4 := Moved(r3, 0xf71fc5a9, 0x816fd6e9);
    Turn(12, r4, 0x00000000, 0x87912990, 0x1e578218);
    var r5 := Moved(r4, 0x87912990, 0x1e578218);
    Turn(13, r5, 0x00000000, 0xd932eb16, 0x745a48de);
    var r6 := Moved(r5, 0xd932eb16, 0x745a48de);
    Turn(14, r6, 0x00000000, 0xc0645fde, 0x0b92f20c);
    var r7 := Moved(r6, 0xc0645fde, 0x0b92f20c);
    Turn(15, r7, 0x00000018, 0xb0fa238e, 0x07590dcd);
  }

  lemma Rounds2()
    ensures Reached(24, Registers(0xc5d53d8d, 0xa7a3623f, 0xc2606d6d, 0x9dc68b63, 0xaa47c347, 0x49f5114a, 0xe1257970, 0x8ada8930))
  {
    Rounds1();
    Words1();
    hide Reached, Scheduled;
    var r0 := Registers(0xb0fa238e, 0xc0645fde, 0xd932eb16, 0x87912990, 0x07590dcd, 0x0b92f20c, 0x745a48de, 0x1e578218);
    Turn(16, r0, 0x61626380, 0x21da9a9b, 0x8034229c);
    var r1 := Moved(r0, 0x21da9a9b, 0x8034229c);
    Turn(17, r1, 0x000f0000, 0xc2fbd9d1, 0x846ee454);
    var r2 := Moved(r1, 0xc2fbd9d1, 0x846ee454);
    Turn(18, r2, 0x7da86405, 0xfe777bbf, 0xcc899961);
    var r3 := Moved(r2, 0xfe777bbf, 0xcc899961);
    Turn(19, r3, 0x600003c6, 0xe1f20c33, 0xb0638179);
    var r4 := Moved(r3, 0xe1f20c33, 0xb0638179);
    Turn(20, r4, 0x3e9d7b78, 0x9dc68b63, 0x8ada8930);
    var r5 := Moved(r4, 0x9dc68b63, 0x8ada8930);
    Turn(21, r5, 0x0183fc00, 0xc2606d6d, 0xe1257970);
    var r6 := Moved(r5, 0xc2606d6d, 0xe1257970);
    Turn(22, r6, 0x12dcbfdb, 0xa7a3623f, 0x49f5114a);
    var r7 := Moved(r6, 0xa7a3623f, 0x49f5114a);
    Turn(23, r7, 0xe2e2c38e, 0xc5d53d8d, 0xaa47c347);
  }

  lemma Rounds3()
    ensures Reached(32, Registers(0x73b33bf5, 0xea992a22, 0xa0060b30, 0x363482c9, 0xba591112, 0x0109ab3a, 0xade79437, 0x6112a3b7))
  {
    Rounds2();
    Words2();
    hide Reached, Scheduled;
    var r0 := Registers(0xc5d53d8d, 0xa7a3623f, 0xc2606d6d, 0x9dc68b63, 0xaa47c347, 0x49f5114a, 0xe1257970, 0x8ada8930);
    Turn(24, r0, 0xc8215c1a, 0x1c2c2838, 0x2823ef91);
    var r1 := Moved(r0, 0x1c2c2838, 0x2823ef91);
    Turn(25, r1, 0xb73679a2, 0xcde8037d, 0x14383d8e);
    var r2 := Moved(r1, 0xcde8037d, 0x14383d8e);
    Turn(26, r2, 0xe5bc3909, 0xb62ec4bc, 0xc74c6516);
    var r3 := Moved(r2, 0xb62ec4bc, 0xc74c6516);
    Turn(27, r3, 0x32663c5b, 0x77d37528, 0xedffbff8);
    var r4 := Moved(r3, 0x77d37528, 0xedffbff8);
    Turn(28, r4, 0x9d209d67, 0x363482c9, 0x6112a3b7);
    var r5 := Moved(r4, 0x363482c9, 0x6112a3b7);
    Turn(29, r5, 0xec8726cb, 0xa0060b30, 0xade79437);
    var r6 := Moved(r5, 0xa0060b30, 0xade79437);
    Turn(30, r6, 0x702138a4, 0xea992a22, 0x0109ab3a);
    var r7 := Moved(r6, 0xea992a22, 0x0109ab3a);
    Turn(31, r7, 0xd3b7973b, 0x73b33bf5, 0xba591112);
  }

  lemma Rounds4()
    ensures Reached(40, Registers(0x79ea687a, 0x6dc57a8a, 0x34df1604, 0x41a65cb1, 0x1efbc0a0, 0xf0781bc8, 0xa507a53d, 0x0772a26b))
  {
    Rounds3();
    Words3();
    hide Reached, Scheduled;
    var r0 := Registers(0x73b33bf5, 0xea992a22, 0xa0060b30, 0x363482c9, 0xba591112, 0x0109ab3a, 0xade79437, 0x6112a3b7);
    Turn(32, r0, 0x93f5997f, 0x98e12507, 0x9cd9f5f6);
    var r1 := Moved(r0, 0x98e12507, 0x9cd9f5f6);
    Turn(33, r1, 0x3b68ba73, 0xfe604df5, 0x59249dd3);
    var r2 := Moved(r1, 0xfe604df5, 0x59249dd3);
    Turn(34, r2, 0xaff4ffc1, 0xa9a7738c, 0x085f3833);
    var r3 := Moved(r2, 0xa9a7738c, 0x085f3833);
    Turn(35, r3, 0xf10a5c62, 0x65a0cfe4, 0xf4b002d6);
    var r4 := Moved(r3, 0x65a0cfe4, 0xf4b002d6);
    Turn(36, r4, 0x0a8b3996, 0x41a65cb1, 0x0772a26b);
    var r5 := Moved(r4, 0x41a65cb1, 0x0772a26b);
    Turn(37, r5, 0x72af830a, 0x34df1604, 0xa507a53d);
    var r6 := Moved(r5, 0x34df1604, 0xa507a53d);
    Turn(38, r6, 0x9409e33e, 0x6dc57a8a, 0xf0781bc8);
    var r7 := Moved(r6, 0x6dc57a8a, 0xf0781bc8);
    Turn(39, r7, 0x24641522, 0x79ea687a, 0x1efbc0a0);
  }

  lemma Rounds5()
    ensures Reached(48, Registers(0x4172328d, 0xa14c14b0, 0x72ab4b91, 0x26628815, 0xfecf0bc6, 0xd57b94a9, 0xb7755da1, 0xa80f11f0))
  {
    Rounds4();
    Words4();
    hide Reached, Scheduled;
    var r0 := Registers(0x79ea687a, 0x6dc57a8a, 0x34df1604, 0x41a65cb1, 0x1efbc0a0, 0xf0781bc8, 0xa507a53d, 0x0772a26b);
    Turn(40, r0, 0x9f47bf94, 0xd6670766, 0x26352d63);
    var r1 := Moved(r0, 0xd6670766, 0x26352d63);
    Turn(41, r1, 0xf0a64f5a, 0xdf46652f, 0x838b2711);
    var r2 := Moved(r1, 0xdf46652f, 0x838b2711);
    Turn(42, r2, 0x3e246a79, 0x17aa0dfe, 0xdecd4715);
    var r3 := Moved(r2, 0x17aa0dfe, 0xdecd4715);
    Turn(43, r3, 0x27333ba3, 0x9d4baf93, 0xfda24c2e);
    var r4 := Moved(r3, 0x9d4baf93, 0xfda24c2e);
    Turn(44, r4, 0x0c4763f2, 0x26628815, 0xa80f11f0);
    var r5 := Moved(r4, 0x26628815, 0xa80f11f0);
    Turn(45, r5, 0x840abf27, 0x72ab4b91, 0xb7755da1);
    var r6 := Moved(r5, 0x72ab4b91, 0xb7755da1);
    Turn(46, r6, 0x7a290d5d, 0xa14c14b0, 0xd57b94a9);
    var r7 := Moved(r6, 0xa14c14b0, 0xd57b94a9);
    Turn(47, r7, 0x065c43da, 0x4172328d, 0xfecf0bc6);
  }

  lemma Rounds6()
    ensures Reached(56, Registers(0x38cc9913, 0x3ec45cdb, 0xf5702fdb, 0x101fd28f, 0x54cb266b, 0xe50e1b4f, 0x9f4787c3, 0x529e7d00))
  {
    Rounds5();
    Words5();
    hide Reached, Scheduled;
    var r0 := Registers(0x4172328d, 0xa14c14b0, 0x72ab4b91, 0x26628815, 0xfecf0bc6, 0xd57b94a9, 0xb7755da1, 0xa80f11f0);
    Turn(48, r0, 0xfb3e89cb, 0x05757ceb, 0xbd714038);
    var r1 := Moved(r0, 0x05757ceb, 0xbd714038);
    Turn(49, r1, 0xcc7617db, 0xf11bfaa8, 0x6e5c390c);
    var r2 := Moved(r1, 0xf11bfaa8, 0x6e5c390c);
    Turn(50, r2, 0xb9e66c34, 0x7a0508a1, 0x52f1ccf7);
    var r3 := Moved(r2, 0x7a0508a1, 0x52f1ccf7);
    Turn(51, r3, 0xa9993667, 0x886e7a22, 0x49231c1e);
    var r4 := Moved(r3, 0x886e7a22, 0x49231c1e);
    Turn(52, r4, 0x84badedd, 0x101fd28f, 0x529e7d00);
    var r5 := Moved(r4, 0x101fd28f, 0x529e7d00);
    Turn(53, r5, 0xc21462bc, 0xf5702fdb, 0x9f4787c3);
    var r6 := Moved(r5, 0xf5702fdb, 0x9f4787c3);
    Turn(54, r6, 0x1487472c, 0x3ec45cdb, 0xe50e1b4f);
    var r7 := Moved(r6, 0x3ec45cdb, 0xe50e1b4f);
    Turn(55, r7, 0xb20f7a99, 0x38cc9913, 0x54cb266b);
  }

  lemma Rounds7()
    ensures Reached(64, Registers(0x506e3058, 0xd39a2165, 0x04d24d6c, 0xb85e2ce9, 0x5ef50f24, 0xfb121210, 0x948d25b6, 0x961f4894))
  {
    Rounds6();
    Words6();
    hide Reached, Scheduled;
    var r0 := Registers(0x38cc9913, 0x3ec45cdb, 0xf5702fdb, 0x101fd28f, 0x54cb266b, 0xe50e1b4f, 0x9f4787c3, 0x529e7d00);
    Turn(56, r0, 0xef57b9cd, 0xfcd1887b, 0x9b5e906c);
    var r1 := Moved(r0, 0xfcd1887b, 0x9b5e906c);
    Turn(57, r1, 0xebe6b238, 0xc062d46f, 0x7e44008e);
    var r2 := Moved(r1, 0xc062d46f, 0x7e44008e);
    Turn(58, r2, 0x9fe3095e, 0xffb70472, 0x6d83bfc6);
    var r3 := Moved(r2, 0xffb70472, 0x6d83bfc6);
    Turn(59, r3, 0x78bc8d4b, 0xb6ae8fff, 0xb21bad3d);
    var r4 := Moved(r3, 0xb6ae8fff, 0xb21bad3d);
    Turn(60, r4, 0xa43fcf15, 0xb85e2ce9, 0x961f4894);
    var r5 := Moved(r4, 0xb85e2ce9, 0x961f4894);
    Turn(61, r5, 0x668b2ff8, 0x04d24d6c, 0x948d25b6);
    var r6 := Moved(r5, 0x04d24d6c, 0x948d25b6);
    Turn(62, r6, 0xeeaba2cc, 0xd39a2165, 0xfb121210);
    var r7 := Moved(r6, 0xd39a2165, 0xfb121210);
    Turn(63, r7, 0x12b1edeb, 0x506e3058, 0x5ef50f24);
  }

  // ---- The digest ----

  /** The digest of abc, four bytes at a time. */
  lemma DigestOfExample()
    ensures WordAt(Digest(ABC), 0) == 0xba7816bf
    ensures WordAt(Digest(ABC), 4) == 0x8f01cfea
    ensures WordAt(Digest(ABC), 8) == 0x414140de
    ensures WordAt(Digest(ABC), 12) == 0x5dae2223
    ensures WordAt(Digest(ABC), 16) == 0xb00361a3
    ensures WordAt(Digest(ABC), 20) == 0x96177a9c
    ensures WordAt(Digest(ABC), 24) == 0xb410ff61
    ensures WordAt(Digest(ABC), 28) == 0xf20015ad
  {
    hide Padding, Fold, Initial, Bytes, Reached, WordAt;
    PaddingOfExample();
    Rounds7();
    CompressedExample();
    var h: Hash := [0xba7816bf, 0x8f01cfea, 0x414140de, 0x5dae2223, 0xb00361a3, 0x96177a9c, 0xb410ff61, 0xf20015ad];
    BytesAreWords(h, 0);
    BytesAreWords(h, 1);
    BytesAreWords(h, 2);
    BytesAreWords(h, 3);
    BytesAreWords(h, 4);
    BytesAreWords(h, 5);
    BytesAreWords(h, 6);
    BytesAreWords(h, 7);
  }

  /** The bytes of a hash are those of its words, the highest first. */
  lemma BytesAreWords(h: Hash, w: nat)
    requires w < 8
    ensures WordAt(Bytes(h), 4 * w) == h[w]
  {
    hide Octet, WordOf;
    WordOfOctets(h[w]);
  }

  lemma CompressedExample()
    requires Reached(64, Registers(0x506e3058, 0xd39a2165, 0x04d24d6c, 0xb85e2ce9, 0x5ef50f24, 0xfb121210, 0x948d25b6, 0x961f4894))
    ensures Fold(Initial(), PADDED) == [0xba7816bf, 0x8f01cfea, 0x414140de, 0x5dae2223, 0xb00361a3, 0x96177a9c, 0xb410ff61, 0xf20015ad]
  {
    hide W, Rounds;
    assert PADDED[..BLOCK] == PADDED && PADDED[BLOCK..] == [];
    FoldNothing(Compress(Initial(), PADDED));
  }
}
