/**
 The one-block example of the standard: the message `abc`, its message schedule, the working variables behind
 each of the 64 rounds, and its digest.
 */
module Sha256Example {
  import opened Sha256Spec

  const ABC: seq<bv8> := [0x61, 0x62, 0x63]

  /** The message, the byte 0x80, 52 zero bytes and the length of 24 bits. */
  function Block(): (b: seq<bv8>)
    ensures |b| == 64
  {
    ABC + [0x80] + Zeros(52) + [0, 0, 0, 0, 0, 0, 0, 24]
  }

  lemma Length24()
    ensures Be64(24) == [0, 0, 0, 0, 0, 0, 0, 24]
  {
    hide Be64;
    forall i | 0 <= i < 7 ensures Be64(24)[i] == 0 { HighByte(i); }
    LowByte();
  }

  lemma ByteAt(i: nat, q: nat)
    requires i < 8 && q < 256 && 24 / Pow256(7 - i) == q
    ensures Be64(24)[i] == q as bv8
  {
    hide Pow256;
    assert q % 256 == q;
  }

  lemma HighByte(i: nat)
    requires i < 7
    ensures Be64(24)[i] == 0
  {
    hide Be64;
    SmallDigit(7 - i);
    ByteAt(i, 0);
  }

  lemma LowByte()
    ensures Be64(24)[7] == 24
  {
    hide Be64;
    assert Pow256(0) == 1;
    ByteAt(7, 24);
  }

  lemma SmallQuotient(p: nat)
    requires p > 24
    ensures 24 / p == 0
  {}

  lemma {:induction false} SmallDigit(k: nat)
    requires k > 0
    ensures 24 / Pow256(k) == 0
  {
    assert Pow256(k) >= 256;
    SmallQuotient(Pow256(k));
  }

  lemma Padded()
    ensures Pad(ABC) == Block()
  {
    Length24();
    hide Be64;
    assert Gap(3) == 52 && 8 * |ABC| % TWO_64 == 24;
  }

  // ----- the message schedule -----

  /** The words of the schedule. */
  ghost predicate Schedule(ws: seq<bv32>) { |ws| == 64 && forall t | 0 <= t < 64 :: ws[t] == W(Block(), t) }

  lemma FirstWords(ws: seq<bv32>)
    requires Schedule(ws)
    ensures |ws| == 64 && ws[0] == 0x61626380 && ws[15] == 0x18
    ensures forall t | 0 < t < 15 :: ws[t] == 0
  {
    forall t | 0 <= t < 16 ensures ws[t] == Word(Block(), t) { WStep(Block(), t); }
    hide W, Schedule;
    var b := Block();
    assert b[..4] == [0x61, 0x62, 0x63, 0x80] && b[60..] == [0, 0, 0, 24];
    forall t | 0 < t < 15 ensures ws[t] == 0 {
      assert b[4 * t] == 0 && b[4 * t + 1] == 0 && b[4 * t + 2] == 0 && b[4 * t + 3] == 0;
    }
  }

  lemma Next(ws: seq<bv32>, t: nat, w2: bv32, w7: bv32, w15: bv32, w16: bv32, w: bv32)
    requires Schedule(ws) && |ws| == 64 && 16 <= t < 64 && Extend(w2, w7, w15, w16) == w
    requires ws[t - 2] == w2 && ws[t - 7] == w7 && ws[t - 15] == w15 && ws[t - 16] == w16
    ensures ws[t] == w
  {
    hide W, Extend, Block;
    WStep(Block(), t);
  }

  lemma Words0(ws: seq<bv32>)
    requires Schedule(ws)
    ensures |ws| == 64
    ensures ws[16] == 0x61626380 && ws[17] == 0x000f0000 && ws[18] == 0x7da86405 && ws[19] == 0x600003c6
    ensures ws[20] == 0x3e9d7b78 && ws[21] == 0x0183fc00 && ws[22] == 0x12dcbfdb && ws[23] == 0xe2e2c38e
  {
    hide Schedule;
    FirstWords(ws);
    Next(ws, 16, 0x00000000, 0x00000000, 0x00000000, 0x61626380, 0x61626380);
    Next(ws, 17, 0x00000018, 0x00000000, 0x00000000, 0x00000000, 0x000f0000);
    Next(ws, 18, 0x61626380, 0x00000000, 0x00000000, 0x00000000, 0x7da86405);
    Next(ws, 19, 0x000f0000, 0x00000000, 0x00000000, 0x00000000, 0x600003c6);
    Next(ws, 20, 0x7da86405, 0x00000000, 0x00000000, 0x00000000, 0x3e9d7b78);
    Next(ws, 21, 0x600003c6, 0x00000000, 0x00000000, 0x00000000, 0x0183fc00);
    Next(ws, 22, 0x3e9d7b78, 0x00000018, 0x00000000, 0x00000000, 0x12dcbfdb);
    Next(ws, 23, 0x0183fc00, 0x61626380, 0x00000000, 0x00000000, 0xe2e2c38e);
  }

  lemma Words1(ws: seq<bv32>)
    requires Schedule(ws)
    ensures |ws| == 64
    ensures ws[24] == 0xc8215c1a && ws[25] == 0xb73679a2 && ws[26] == 0xe5bc3909 && ws[27] == 0x32663c5b
    ensures ws[28] == 0x9d209d67 && ws[29] == 0xec8726cb && ws[30] == 0x702138a4 && ws[31] == 0xd3b7973b
  {
    hide Schedule;
    FirstWords(ws);
    Words0(ws);
    Next(ws, 24, 0x12dcbfdb, 0x000f0000, 0x00000000, 0x00000000, 0xc8215c1a);
    Next(ws, 25, 0xe2e2c38e, 0x7da86405, 0x00000000, 0x00000000, 0xb73679a2);
    Next(ws, 26, 0xc8215c1a, 0x600003c6, 0x00000000, 0x00000000, 0xe5bc3909);
    Next(ws, 27, 0xb73679a2, 0x3e9d7b78, 0x00000000, 0x00000000, 0x32663c5b);
    Next(ws, 28, 0xe5bc3909, 0x0183fc00, 0x00000000, 0x00000000, 0x9d209d67);
    Next(ws, 29, 0x32663c5b, 0x12dcbfdb, 0x00000000, 0x00000000, 0xec8726cb);
    Next(ws, 30, 0x9d209d67, 0xe2e2c38e, 0x00000018, 0x00000000, 0x702138a4);
    Next(ws, 31, 0xec8726cb, 0xc8215c1a, 0x61626380, 0x00000018, 0xd3b7973b);
  }

  lemma Words2(ws: seq<bv32>)
    requires Schedule(ws)
    ensures |ws| == 64
    ensures ws[32] == 0x93f5997f && ws[33] == 0x3b68ba73 && ws[34] == 0xaff4ffc1 && ws[35] == 0xf10a5c62
    ensures ws[36] == 0x0a8b3996 && ws[37] == 0x72af830a && ws[38] == 0x9409e33e && ws[39] == 0x24641522
  {
    hide Schedule;
    Words0(ws);
    Words1(ws);
    Next(ws, 32, 0x702138a4, 0xb73679a2, 0x000f0000, 0x61626380, 0x93f5997f);
    Next(ws, 33, 0xd3b7973b, 0xe5bc3909, 0x7da86405, 0x000f0000, 0x3b68ba73);
    Next(ws, 34, 0x93f5997f, 0x32663c5b, 0x600003c6, 0x7da86405, 0xaff4ffc1);
    Next(ws, 35, 0x3b68ba73, 0x9d209d67, 0x3e9d7b78, 0x600003c6, 0xf10a5c62);
    Next(ws, 36, 0xaff4ffc1, 0xec8726cb, 0x0183fc00, 0x3e9d7b78, 0x0a8b3996);
    Next(ws, 37, 0xf10a5c62, 0x702138a4, 0x12dcbfdb, 0x0183fc00, 0x72af830a);
    Next(ws, 38, 0x0a8b3996, 0xd3b7973b, 0xe2e2c38e, 0x12dcbfdb, 0x9409e33e);
    Next(ws, 39, 0x72af830a, 0x93f5997f, 0xc8215c1a, 0xe2e2c38e, 0x24641522);
  }

  lemma Words3(ws: seq<bv32>)
    requires Schedule(ws)
    ensures |ws| == 64
    ensures ws[40] == 0x9f47bf94 && ws[41] == 0xf0a64f5a && ws[42] == 0x3e246a79 && ws[43] == 0x27333ba3
    ensures ws[44] == 0x0c4763f2 && ws[45] == 0x840abf27 && ws[46] == 0x7a290d5d && ws[47] == 0x065c43da
  {
    hide Schedule;
    Words1(ws);
    Words2(ws);
    Next(ws, 40, 0x9409e33e, 0x3b68ba73, 0xb73679a2, 0xc8215c1a, 0x9f47bf94);
    Next(ws, 41, 0x24641522, 0xaff4ffc1, 0xe5bc3909, 0xb73679a2, 0xf0a64f5a);
    Next(ws, 42, 0x9f47bf94, 0xf10a5c62, 0x32663c5b, 0xe5bc3909, 0x3e246a79);
    Next(ws, 43, 0xf0a64f5a, 0x0a8b3996, 0x9d209d67, 0x32663c5b, 0x27333ba3);
    Next(ws, 44, 0x3e246a79, 0x72af830a, 0xec8726cb, 0x9d209d67, 0x0c4763f2);
    Next(ws, 45, 0x27333ba3, 0x9409e33e, 0x702138a4, 0xec8726cb, 0x840abf27);
    Next(ws, 46, 0x0c4763f2, 0x24641522, 0xd3b7973b, 0x702138a4, 0x7a290d5d);
    Next(ws, 47, 0x840abf27, 0x9f47bf94, 0x93f5997f, 0xd3b7973b, 0x065c43da);
  }

  lemma Words4(ws: seq<bv32>)
    requires Schedule(ws)
    ensures |ws| == 64
    ensures ws[48] == 0xfb3e89cb && ws[49] == 0xcc7617db && ws[50] == 0xb9e66c34 && ws[51] == 0xa9993667
    ensures ws[52] == 0x84badedd && ws[53] == 0xc21462bc && ws[54] == 0x1487472c && ws[55] == 0xb20f7a99
  {
    hide Schedule;
    Words2(ws);
    Words3(ws);
    Next(ws, 48, 0x7a290d5d, 0xf0a64f5a, 0x3b68ba73, 0x93f5997f, 0xfb3e89cb);
    Next(ws, 49, 0x065c43da, 0x3e246a79, 0xaff4ffc1, 0x3b68ba73, 0xcc7617db);
    Next(ws, 50, 0xfb3e89cb, 0x27333ba3, 0xf10a5c62, 0xaff4ffc1, 0xb9e66c34);
    Next(ws, 51, 0xcc7617db, 0x0c4763f2, 0x0a8b3996, 0xf10a5c62, 0xa9993667);
    Next(ws, 52, 0xb9e66c34, 0x840abf27, 0x72af830a, 0x0a8b3996, 0x84badedd);
    Next(ws, 53, 0xa9993667, 0x7a290d5d, 0x9409e33e, 0x72af830a, 0xc21462bc);
    Next(ws, 54, 0x84badedd, 0x065c43da, 0x24641522, 0x9409e33e, 0x1487472c);
    Next(ws, 55, 0xc21462bc, 0xfb3e89cb, 0x9f47bf94, 0x24641522, 0xb20f7a99);
  }

  lemma Words5(ws: seq<bv32>)
    requires Schedule(ws)
    ensures |ws| == 64
    ensures ws[56] == 0xef57b9cd && ws[57] == 0xebe6b238 && ws[58] == 0x9fe3095e && ws[59] == 0x78bc8d4b
    ensures ws[60] == 0xa43fcf15 && ws[61] == 0x668b2ff8 && ws[62] == 0xeeaba2cc && ws[63] == 0x12b1edeb
  {
    hide Schedule;
    Words3(ws);
    Words4(ws);
    Next(ws, 56, 0x1487472c, 0xcc7617db, 0xf0a64f5a, 0x9f47bf94, 0xef57b9cd);
    Next(ws, 57, 0xb20f7a99, 0xb9e66c34, 0x3e246a79, 0xf0a64f5a, 0xebe6b238);
    Next(ws, 58, 0xef57b9cd, 0xa9993667, 0x27333ba3, 0x3e246a79, 0x9fe3095e);
    Next(ws, 59, 0xebe6b238, 0x84badedd, 0x0c4763f2, 0x27333ba3, 0x78bc8d4b);
    Next(ws, 60, 0x9fe3095e, 0xc21462bc, 0x840abf27, 0x0c4763f2, 0xa43fcf15);
    Next(ws, 61, 0x78bc8d4b, 0x1487472c, 0x7a290d5d, 0x840abf27, 0x668b2ff8);
    Next(ws, 62, 0xa43fcf15, 0xb20f7a99, 0x065c43da, 0x7a290d5d, 0xeeaba2cc);
    Next(ws, 63, 0x668b2ff8, 0xef57b9cd, 0xfb3e89cb, 0x065c43da, 0x12b1edeb);
  }

  // ----- the rounds -----

  /** The new `a` and `e`; the other variables move on. */
  function Moved(r: Regs, a: bv32, e: bv32): Regs { Regs(a, r.a, r.b, r.c, e, r.e, r.f, r.g) }

  /** The working variables behind each round. */
  ghost predicate Course(rs: seq<Regs>) { |rs| == 65 && forall t | 0 <= t <= 64 :: rs[t] == Rounds(H0(), Block(), t) }

  lemma Step(rs: seq<Regs>, ws: seq<bv32>, t: nat, r: Regs, k: bv32, w: bv32, a: bv32, e: bv32) returns (s: Regs)
    requires Course(rs) && Schedule(ws) && |rs| == 65 && |ws| == 64 && t < 64
    requires rs[t] == r && K(t) == k && ws[t] == w && Round(r, k, w) == Moved(r, a, e)
    ensures s == Moved(r, a, e) && rs[t + 1] == s
  {
    hide W, K, Block, H0, Rounds, Round;
    RoundsStep(H0(), Block(), t);
    s := Moved(r, a, e);
  }

  lemma Constants0()
    ensures K(0) == 0x428a2f98 && K(1) == 0x71374491 && K(2) == 0xb5c0fbcf && K(3) == 0xe9b5dba5
    ensures K(4) == 0x3956c25b && K(5) == 0x59f111f1 && K(6) == 0x923f82a4 && K(7) == 0xab1c5ed5
  {}

  lemma Constants1()
    ensures K(8) == 0xd807aa98 && K(9) == 0x12835b01 && K(10) == 0x243185be && K(11) == 0x550c7dc3
    ensures K(12) == 0x72be5d74 && K(13) == 0x80deb1fe && K(14) == 0x9bdc06a7 && K(15) == 0xc19bf174
  {}

  lemma Constants2()
    ensures K(16) == 0xe49b69c1 && K(17) == 0xefbe4786 && K(18) == 0x0fc19dc6 && K(19) == 0x240ca1cc
    ensures K(20) == 0x2de92c6f && K(21) == 0x4a7484aa && K(22) == 0x5cb0a9dc && K(23) == 0x76f988da
  {}

  lemma Constants3()
    ensures K(24) == 0x983e5152 && K(25) == 0xa831c66d && K(26) == 0xb00327c8 && K(27) == 0xbf597fc7
    ensures K(28) == 0xc6e00bf3 && K(29) == 0xd5a79147 && K(30) == 0x06ca6351 && K(31) == 0x14292967
  {}

  lemma Constants4()
    ensures K(32) == 0x27b70a85 && K(33) == 0x2e1b2138 && K(34) == 0x4d2c6dfc && K(35) == 0x53380d13
    ensures K(36) == 0x650a7354 && K(37) == 0x766a0abb && K(38) == 0x81c2c92e && K(39) == 0x92722c85
  {}

  lemma Constants5()
    ensures K(40) == 0xa2bfe8a1 && K(41) == 0xa81a664b && K(42) == 0xc24b8b70 && K(43) == 0xc76c51a3
    ensures K(44) == 0xd192e819 && K(45) == 0xd6990624 && K(46) == 0xf40e3585 && K(47) == 0x106aa070
  {}

  lemma Constants6()
    ensures K(48) == 0x19a4c116 && K(49) == 0x1e376c08 && K(50) == 0x2748774c && K(51) == 0x34b0bcb5
    ensures K(52) == 0x391c0cb3 && K(53) == 0x4ed8aa4a && K(54) == 0x5b9cca4f && K(55) == 0x682e6ff3
  {}

  lemma Constants7()
    ensures K(56) == 0x748f82ee && K(57) == 0x78a5636f && K(58) == 0x84c87814 && K(59) == 0x8cc70208
    ensures K(60) == 0x90befffa && K(61) == 0xa4506ceb && K(62) == 0xbef9a3f7 && K(63) == 0xc67178f2
  {}

  lemma Started(rs: seq<Regs>)
    requires Course(rs)
    ensures |rs| == 65 && rs[0]
            == Regs(0x6a09e667, 0xbb67ae85, 0x3c6ef372, 0xa54ff53a, 0x510e527f, 0x9b05688c, 0x1f83d9ab, 0x5be0cd19)
  {
    var h, b := H0(), Block();
    assert rs[0] == Rounds(h, b, 0) == Start(h);
    hide Block, Rounds;
  }

  lemma Rounds0(rs: seq<Regs>, ws: seq<bv32>)
    requires Course(rs) && Schedule(ws)
    ensures |rs| == 65 && |ws| == 64
    ensures rs[8]
            == Regs(0x85a07b5f, 0xe5030380, 0x2b4209f5, 0x04409a6a, 0x0c657a79, 0x9b27a401, 0x714260ad, 0x43ada245)
  {
    hide Course, Schedule, K;
    FirstWords(ws);
    Constants0();
    Started(rs);
    var r := Regs(0x6a09e667, 0xbb67ae85, 0x3c6ef372, 0xa54ff53a, 0x510e527f, 0x9b05688c, 0x1f83d9ab, 0x5be0cd19);
    r := Step(rs, ws, 0, r, 0x428a2f98, 0x61626380, 0x5d6aebcd, 0xfa2a4622);
    r := Step(rs, ws, 1, r, 0x71374491, 0x00000000, 0x5a6ad9ad, 0x78ce7989);
    r := Step(rs, ws, 2, r, 0xb5c0fbcf, 0x00000000, 0xc8c347a7, 0xf92939eb);
    r := Step(rs, ws, 3, r, 0xe9b5dba5, 0x00000000, 0xd550f666, 0x24e00850);
    r := Step(rs, ws, 4, r, 0x3956c25b, 0x00000000, 0x04409a6a, 0x43ada245);
    r := Step(rs, ws, 5, r, 0x59f111f1, 0x00000000, 0x2b4209f5, 0x714260ad);
    r := Step(rs, ws, 6, r, 0x923f82a4, 0x00000000, 0xe5030380, 0x9b27a401);
    r := Step(rs, ws, 7, r, 0xab1c5ed5, 0x00000000, 0x85a07b5f, 0x0c657a79);
  }

  lemma Rounds1(rs: seq<Regs>, ws: seq<bv32>)
    requires Course(rs) && Schedule(ws)
    ensures |rs| == 65 && |ws| == 64
    ensures rs[16]
            == Regs(0xb0fa238e, 0xc0645fde, 0xd932eb16, 0x87912990, 0x07590dcd, 0x0b92f20c, 0x745a48de, 0x1e578218)
  {
    hide Course, Schedule, K;
    FirstWords(ws);
    Constants1();
    Rounds0(rs, ws);
    var r := Regs(0x85a07b5f, 0xe5030380, 0x2b4209f5, 0x04409a6a, 0x0c657a79, 0x9b27a401, 0x714260ad, 0x43ada245);
    r := Step(rs, ws, 8, r, 0xd807aa98, 0x00000000, 0x8e04ecb9, 0x32ca2d8c);
    r := Step(rs, ws, 9, r, 0x12835b01, 0x00000000, 0x8c87346b, 0x1cc92596);
    r := Step(rs, ws, 10, r, 0x243185be, 0x00000000, 0x4798a3f4, 0x436b23e8);
    r := Step(rs, ws, 11, r, 0x550c7dc3, 0x00000000, 0xf71fc5a9, 0x816fd6e9);
    r := Step(rs, ws, 12, r, 0x72be5d74, 0x00000000, 0x87912990, 0x1e578218);
    r := Step(rs, ws, 13, r, 0x80deb1fe, 0x00000000, 0xd932eb16, 0x745a48de);
    r := Step(rs, ws, 14, r, 0x9bdc06a7, 0x00000000, 0xc0645fde, 0x0b92f20c);
    r := Step(rs, ws, 15, r, 0xc19bf174, 0x00000018, 0xb0fa238e, 0x07590dcd);
  }

  lemma Rounds2(rs: seq<Regs>, ws: seq<bv32>)
    requires Course(rs) && Schedule(ws)
    ensures |rs| == 65 && |ws| == 64
    ensures rs[24]
            == Regs(0xc5d53d8d, 0xa7a3623f, 0xc2606d6d, 0x9dc68b63, 0xaa47c347, 0x49f5114a, 0xe1257970, 0x8ada8930)
  {
    hide Course, Schedule, K;
    Words0(ws);
    Constants2();
    Rounds1(rs, ws);
    var r := Regs(0xb0fa238e, 0xc0645fde, 0xd932eb16, 0x87912990, 0x07590dcd, 0x0b92f20c, 0x745a48de, 0x1e578218);
    r := Step(rs, ws, 16, r, 0xe49b69c1, 0x61626380, 0x21da9a9b, 0x8034229c);
    r := Step(rs, ws, 17, r, 0xefbe4786, 0x000f0000, 0xc2fbd9d1, 0x846ee454);
    r := Step(rs, ws, 18, r, 0x0fc19dc6, 0x7da86405, 0xfe777bbf, 0xcc899961);
    r := Step(rs, ws, 19, r, 0x240ca1cc, 0x600003c6, 0xe1f20c33, 0xb0638179);
    r := Step(rs, ws, 20, r, 0x2de92c6f, 0x3e9d7b78, 0x9dc68b63, 0x8ada8930);
    r := Step(rs, ws, 21, r, 0x4a7484aa, 0x0183fc00, 0xc2606d6d, 0xe1257970);
    r := Step(rs, ws, 22, r, 0x5cb0a9dc, 0x12dcbfdb, 0xa7a3623f, 0x49f5114a);
    r := Step(rs, ws, 23, r, 0x76f988da, 0xe2e2c38e, 0xc5d53d8d, 0xaa47c347);
  }

  lemma Rounds3(rs: seq<Regs>, ws: seq<bv32>)
    requires Course(rs) && Schedule(ws)
    ensures |rs| == 65 && |ws| == 64
    ensures rs[32]
            == Regs(0x73b33bf5, 0xea992a22, 0xa0060b30, 0x363482c9, 0xba591112, 0x0109ab3a, 0xade79437, 0x6112a3b7)
  {
    hide Course, Schedule, K;
    Words1(ws);
    Constants3();
    Rounds2(rs, ws);
    var r := Regs(0xc5d53d8d, 0xa7a3623f, 0xc2606d6d, 0x9dc68b63, 0xaa47c347, 0x49f5114a, 0xe1257970, 0x8ada8930);
    r := Step(rs, ws, 24, r, 0x983e5152, 0xc8215c1a, 0x1c2c2838, 0x2823ef91);
    r := Step(rs, ws, 25, r, 0xa831c66d, 0xb73679a2, 0xcde8037d, 0x14383d8e);
    r := Step(rs, ws, 26, r, 0xb00327c8, 0xe5bc3909, 0xb62ec4bc, 0xc74c6516);
    r := Step(rs, ws, 27, r, 0xbf597fc7, 0x32663c5b, 0x77d37528, 0xedffbff8);
    r := Step(rs, ws, 28, r, 0xc6e00bf3, 0x9d209d67, 0x363482c9, 0x6112a3b7);
    r := Step(rs, ws, 29, r, 0xd5a79147, 0xec8726cb, 0xa0060b30, 0xade79437);
    r := Step(rs, ws, 30, r, 0x06ca6351, 0x702138a4, 0xea992a22, 0x0109ab3a);
    r := Step(rs, ws, 31, r, 0x14292967, 0xd3b7973b, 0x73b33bf5, 0xba591112);
  }

  lemma Rounds4(rs: seq<Regs>, ws: seq<bv32>)
    requires Course(rs) && Schedule(ws)
    ensures |rs| == 65 && |ws| == 64
    ensures rs[40]
            == Regs(0x79ea687a, 0x6dc57a8a, 0x34df1604, 0x41a65cb1, 0x1efbc0a0, 0xf0781bc8, 0xa507a53d, 0x0772a26b)
  {
    hide Course, Schedule, K;
    Words2(ws);
    Constants4();
    Rounds3(rs, ws);
    var r := Regs(0x73b33bf5, 0xea992a22, 0xa0060b30, 0x363482c9, 0xba591112, 0x0109ab3a, 0xade79437, 0x6112a3b7);
    r := Step(rs, ws, 32, r, 0x27b70a85, 0x93f5997f, 0x98e12507, 0x9cd9f5f6);
    r := Step(rs, ws, 33, r, 0x2e1b2138, 0x3b68ba73, 0xfe604df5, 0x59249dd3);
    r := Step(rs, ws, 34, r, 0x4d2c6dfc, 0xaff4ffc1, 0xa9a7738c, 0x085f3833);
    r := Step(rs, ws, 35, r, 0x53380d13, 0xf10a5c62, 0x65a0cfe4, 0xf4b002d6);
    r := Step(rs, ws, 36, r, 0x650a7354, 0x0a8b3996, 0x41a65cb1, 0x0772a26b);
    r := Step(rs, ws, 37, r, 0x766a0abb, 0x72af830a, 0x34df1604, 0xa507a53d);
    r := Step(rs, ws, 38, r, 0x81c2c92e, 0x9409e33e, 0x6dc57a8a, 0xf0781bc8);
    r := Step(rs, ws, 39, r, 0x92722c85, 0x24641522, 0x79ea687a, 0x1efbc0a0);
  }

  lemma Rounds5(rs: seq<Regs>, ws: seq<bv32>)
    requires Course(rs) && Schedule(ws)
    ensures |rs| == 65 && |ws| == 64
    ensures rs[48]
            == Regs(0x4172328d, 0xa14c14b0, 0x72ab4b91, 0x26628815, 0xfecf0bc6, 0xd57b94a9, 0xb7755da1, 0xa80f11f0)
  {
    hide Course, Schedule, K;
    Words3(ws);
    Constants5();
    Rounds4(rs, ws);
    var r := Regs(0x79ea687a, 0x6dc57a8a, 0x34df1604, 0x41a65cb1, 0x1efbc0a0, 0xf0781bc8, 0xa507a53d, 0x0772a26b);
    r := Step(rs, ws, 40, r, 0xa2bfe8a1, 0x9f47bf94, 0xd6670766, 0x26352d63);
    r := Step(rs, ws, 41, r, 0xa81a664b, 0xf0a64f5a, 0xdf46652f, 0x838b2711);
    r := Step(rs, ws, 42, r, 0xc24b8b70, 0x3e246a79, 0x17aa0dfe, 0xdecd4715);
    r := Step(rs, ws, 43, r, 0xc76c51a3, 0x27333ba3, 0x9d4baf93, 0xfda24c2e);
    r := Step(rs, ws, 44, r, 0xd192e819, 0x0c4763f2, 0x26628815, 0xa80f11f0);
    r := Step(rs, ws, 45, r, 0xd6990624, 0x840abf27, 0x72ab4b91, 0xb7755da1);
    r := Step(rs, ws, 46, r, 0xf40e3585, 0x7a290d5d, 0xa14c14b0, 0xd57b94a9);
    r := Step(rs, ws, 47, r, 0x106aa070, 0x065c43da, 0x4172328d, 0xfecf0bc6);
  }

  lemma Rounds6(rs: seq<Regs>, ws: seq<bv32>)
    requires Course(rs) && Schedule(ws)
    ensures |rs| == 65 && |ws| == 64
    ensures rs[56]
            == Regs(0x38cc9913, 0x3ec45cdb, 0xf5702fdb, 0x101fd28f, 0x54cb266b, 0xe50e1b4f, 0x9f4787c3, 0x529e7d00)
  {
    hide Course, Schedule, K;
    Words4(ws);
    Constants6();
    Rounds5(rs, ws);
    var r := Regs(0x4172328d, 0xa14c14b0, 0x72ab4b91, 0x26628815, 0xfecf0bc6, 0xd57b94a9, 0xb7755da1, 0xa80f11f0);
    r := Step(rs, ws, 48, r, 0x19a4c116, 0xfb3e89cb, 0x05757ceb, 0xbd714038);
    r := Step(rs, ws, 49, r, 0x1e376c08, 0xcc7617db, 0xf11bfaa8, 0x6e5c390c);
    r := Step(rs, ws, 50, r, 0x2748774c, 0xb9e66c34, 0x7a0508a1, 0x52f1ccf7);
    r := Step(rs, ws, 51, r, 0x34b0bcb5, 0xa9993667, 0x886e7a22, 0x49231c1e);
    r := Step(rs, ws, 52, r, 0x391c0cb3, 0x84badedd, 0x101fd28f, 0x529e7d00);
    r := Step(rs, ws, 53, r, 0x4ed8aa4a, 0xc21462bc, 0xf5702fdb, 0x9f4787c3);
    r := Step(rs, ws, 54, r, 0x5b9cca4f, 0x1487472c, 0x3ec45cdb, 0xe50e1b4f);
    r := Step(rs, ws, 55, r, 0x682e6ff3, 0xb20f7a99, 0x38cc9913, 0x54cb266b);
  }

  lemma Rounds7(rs: seq<Regs>, ws: seq<bv32>)
    requires Course(rs) && Schedule(ws)
    ensures |rs| == 65 && |ws| == 64
    ensures rs[64]
            == Regs(0x506e3058, 0xd39a2165, 0x04d24d6c, 0xb85e2ce9, 0x5ef50f24, 0xfb121210, 0x948d25b6, 0x961f4894)
  {
    hide Course, Schedule, K;
    Words5(ws);
    Constants7();
    Rounds6(rs, ws);
    var r := Regs(0x38cc9913, 0x3ec45cdb, 0xf5702fdb, 0x101fd28f, 0x54cb266b, 0xe50e1b4f, 0x9f4787c3, 0x529e7d00);
    r := Step(rs, ws, 56, r, 0x748f82ee, 0xef57b9cd, 0xfcd1887b, 0x9b5e906c);
    r := Step(rs, ws, 57, r, 0x78a5636f, 0xebe6b238, 0xc062d46f, 0x7e44008e);
    r := Step(rs, ws, 58, r, 0x84c87814, 0x9fe3095e, 0xffb70472, 0x6d83bfc6);
    r := Step(rs, ws, 59, r, 0x8cc70208, 0x78bc8d4b, 0xb6ae8fff, 0xb21bad3d);
    r := Step(rs, ws, 60, r, 0x90befffa, 0xa43fcf15, 0xb85e2ce9, 0x961f4894);
    r := Step(rs, ws, 61, r, 0xa4506ceb, 0x668b2ff8, 0x04d24d6c, 0x948d25b6);
    r := Step(rs, ws, 62, r, 0xbef9a3f7, 0xeeaba2cc, 0xd39a2165, 0xfb121210);
    r := Step(rs, ws, 63, r, 0xc67178f2, 0x12b1edeb, 0x506e3058, 0x5ef50f24);
  }

  // ----- the digest -----

  const DIGEST: seq<bv32> :=
    [0xba7816bf, 0x8f01cfea, 0x414140de, 0x5dae2223, 0xb00361a3, 0x96177a9c, 0xb410ff61, 0xf20015ad]

  lemma Added()
    ensures AddTo(H0(),
                  Regs(0x506e3058, 0xd39a2165, 0x04d24d6c, 0xb85e2ce9, 0x5ef50f24, 0xfb121210, 0x948d25b6, 0x961f4894))
            == DIGEST
  {}

  lemma WordBytes()
    ensures Bytes(0xba7816bf) == [0xba, 0x78, 0x16, 0xbf]
    ensures Bytes(0x8f01cfea) == [0x8f, 0x01, 0xcf, 0xea]
    ensures Bytes(0x414140de) == [0x41, 0x41, 0x40, 0xde]
    ensures Bytes(0x5dae2223) == [0x5d, 0xae, 0x22, 0x23]
    ensures Bytes(0xb00361a3) == [0xb0, 0x03, 0x61, 0xa3]
    ensures Bytes(0x96177a9c) == [0x96, 0x17, 0x7a, 0x9c]
    ensures Bytes(0xb410ff61) == [0xb4, 0x10, 0xff, 0x61]
    ensures Bytes(0xf20015ad) == [0xf2, 0x00, 0x15, 0xad]
  {}

  lemma LastWord(h: seq<bv32>, w: bv32)
    ensures BigEndian(h + [w]) == BigEndian(h) + Bytes(w)
  {
    assert (h + [w])[..|h|] == h;
  }

  lemma Four(h: seq<bv32>, a: bv32, b: bv32, c: bv32, d: bv32)
    ensures BigEndian(h + [a, b, c, d]) == BigEndian(h) + Bytes(a) + Bytes(b) + Bytes(c) + Bytes(d)
  {
    hide BigEndian, Bytes;
    LastWord(h, a);
    LastWord(h + [a], b);
    LastWord(h + [a] + [b], c);
    LastWord(h + [a] + [b] + [c], d);
    assert h + [a, b, c, d] == h + [a] + [b] + [c] + [d];
  }

  const FIRST: seq<bv8> :=
    [0xba, 0x78, 0x16, 0xbf, 0x8f, 0x01, 0xcf, 0xea, 0x41, 0x41, 0x40, 0xde, 0x5d, 0xae, 0x22, 0x23]

  const SECOND: seq<bv8> :=
    [0xb0, 0x03, 0x61, 0xa3, 0x96, 0x17, 0x7a, 0x9c, 0xb4, 0x10, 0xff, 0x61, 0xf2, 0x00, 0x15, 0xad]

  lemma FirstHalf()
    ensures BigEndian(DIGEST[..4]) == FIRST
  {
    WordBytes();
    Empty();
    Four([], DIGEST[0], DIGEST[1], DIGEST[2], DIGEST[3]);
    hide BigEndian, Bytes;
    assert DIGEST[..4] == [] + [DIGEST[0], DIGEST[1], DIGEST[2], DIGEST[3]];
  }

  lemma SecondHalf()
    ensures BigEndian(DIGEST) == BigEndian(DIGEST[..4]) + SECOND
  {
    WordBytes();
    Four(DIGEST[..4], DIGEST[4], DIGEST[5], DIGEST[6], DIGEST[7]);
    hide BigEndian, Bytes;
    assert DIGEST == DIGEST[..4] + [DIGEST[4], DIGEST[5], DIGEST[6], DIGEST[7]];
  }

  lemma Empty()
    ensures BigEndian([]) == []
  {}

  lemma AbcBlock()
    ensures HashBlocks(H0(), Pad(ABC)) == DIGEST
  {
    hide Block, AddTo, Rounds, H0, Pad, W;
    Padded();
    var b := Block();
    var ws := seq(64, t requires 0 <= t < 64 => W(b, t));
    var rs := seq(65, t requires 0 <= t <= 64 => Rounds(H0(), b, t));
    assert Schedule(ws) && Course(rs);
    Rounds7(rs, ws);
    Added();
    assert b[..64] == b && b[64..] == [];
  }

  /** `abc` is hashed to the digest that the standard gives. */
  lemma AbcDigest()
    ensures Sha256(ABC) == FIRST + SECOND
  {
    AbcBlock();
    FirstHalf();
    SecondHalf();
    hide HashBlocks, BigEndian, Pad, H0;
  }
}
