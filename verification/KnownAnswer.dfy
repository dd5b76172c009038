/** A known answer: the digest of "abc" that FIPS 180-4 has as an example, computed step by
    step from the definitions.  It fixes every constant, rotation and byte order in them. */
module KnownAnswer {
  import opened Basics
  import opened Sha256

  /** The one padded block of the message. */
  function Abc(): (b: Bytes)
    ensures |b| == 64
  {
    [0x61, 0x62, 0x63, 0x80] + Zeros(59) + [24]
  }

  // ---------- the message schedule ----------

  lemma {:induction false} FirstWord(b: Bytes)
    requires b == Abc()
    ensures W(b, 0) == 0x61626380
  {
    assert b[0] == 0x61 && b[1] == 0x62 && b[2] == 0x63 && b[3] == 0x80;
    hide Abc;
  }

  lemma {:induction false} MiddleWord(b: Bytes, t: nat)
    requires b == Abc()
    requires 0 < t < 15
    ensures W(b, t) == 0
  {
    assert b[4 * t] == 0 && b[4 * t + 1] == 0 && b[4 * t + 2] == 0 && b[4 * t + 3] == 0;
    hide Abc;
  }

  lemma {:induction false} LastWord(b: Bytes)
    requires b == Abc()
    ensures W(b, 15) == 24
  {
    assert b[60] == 0 && b[61] == 0 && b[62] == 0 && b[63] == 24;
    hide Abc;
  }

  lemma {:induction false} Words0(b: Bytes)
    requires b == Abc()
    ensures W(b, 0) == 0x61626380 && W(b, 15) == 24
    ensures forall t :: 0 < t < 15 ==> W(b, t) == 0
  {
    FirstWord(b);
    LastWord(b);
    forall t | 0 < t < 15
      ensures W(b, t) == 0
    {
      MiddleWord(b, t);
    }
  }

  lemma {:induction false} Words16(b: Bytes)
    requires b == Abc()
    ensures
      W(b, 16) == 0x61626380 && W(b, 17) == 0x000f0000 && W(b, 18) == 0x7da86405 &&
      W(b, 19) == 0x600003c6 && W(b, 20) == 0x3e9d7b78 && W(b, 21) == 0x0183fc00 &&
      W(b, 22) == 0x12dcbfdb && W(b, 23) == 0xe2e2c38e
  {
    Words0(b);
    hide Abc, WordAt;
    assert W(b, 16) == NextW(0x61626380, 0x00000000, 0x00000000, 0x00000000) == 0x61626380;
    assert W(b, 17) == NextW(0x00000000, 0x00000000, 0x00000000, 0x00000018) == 0x000f0000;
    assert W(b, 18) == NextW(0x00000000, 0x00000000, 0x00000000, 0x61626380) == 0x7da86405;
    assert W(b, 19) == NextW(0x00000000, 0x00000000, 0x00000000, 0x000f0000) == 0x600003c6;
    assert W(b, 20) == NextW(0x00000000, 0x00000000, 0x00000000, 0x7da86405) == 0x3e9d7b78;
    assert W(b, 21) == NextW(0x00000000, 0x00000000, 0x00000000, 0x600003c6) == 0x0183fc00;
    assert W(b, 22) == NextW(0x00000000, 0x00000000, 0x00000018, 0x3e9d7b78) == 0x12dcbfdb;
    assert W(b, 23) == NextW(0x00000000, 0x00000000, 0x61626380, 0x0183fc00) == 0xe2e2c38e;
  }

  lemma {:induction false} Words24(b: Bytes)
    requires b == Abc()
    ensures
      W(b, 24) == 0xc8215c1a && W(b, 25) == 0xb73679a2 && W(b, 26) == 0xe5bc3909 &&
      W(b, 27) == 0x32663c5b && W(b, 28) == 0x9d209d67 && W(b, 29) == 0xec8726cb &&
      W(b, 30) == 0x702138a4 && W(b, 31) == 0xd3b7973b
  {
    Words0(b);
    Words16(b);
    hide Abc, WordAt;
    assert W(b, 24) == NextW(0x00000000, 0x00000000, 0x000f0000, 0x12dcbfdb) == 0xc8215c1a;
    assert W(b, 25) == NextW(0x00000000, 0x00000000, 0x7da86405, 0xe2e2c38e) == 0xb73679a2;
    assert W(b, 26) == NextW(0x00000000, 0x00000000, 0x600003c6, 0xc8215c1a) == 0xe5bc3909;
    assert W(b, 27) == NextW(0x00000000, 0x00000000, 0x3e9d7b78, 0xb73679a2) == 0x32663c5b;
    assert W(b, 28) == NextW(0x00000000, 0x00000000, 0x0183fc00, 0xe5bc3909) == 0x9d209d67;
    assert W(b, 29) == NextW(0x00000000, 0x00000000, 0x12dcbfdb, 0x32663c5b) == 0xec8726cb;
    assert W(b, 30) == NextW(0x00000000, 0x00000018, 0xe2e2c38e, 0x9d209d67) == 0x702138a4;
    assert W(b, 31) == NextW(0x00000018, 0x61626380, 0xc8215c1a, 0xec8726cb) == 0xd3b7973b;
  }

  lemma {:induction false} Words32(b: Bytes)
    requires b == Abc()
    ensures
      W(b, 32) == 0x93f5997f && W(b, 33) == 0x3b68ba73 && W(b, 34) == 0xaff4ffc1 &&
      W(b, 35) == 0xf10a5c62 && W(b, 36) == 0x0a8b3996 && W(b, 37) == 0x72af830a &&
      W(b, 38) == 0x9409e33e && W(b, 39) == 0x24641522
  {
    Words16(b);
    Words24(b);
    hide Abc, WordAt;
    assert W(b, 32) == NextW(0x61626380, 0x000f0000, 0xb73679a2, 0x702138a4) == 0x93f5997f;
    assert W(b, 33) == NextW(0x000f0000, 0x7da86405, 0xe5bc3909, 0xd3b7973b) == 0x3b68ba73;
    assert W(b, 34) == NextW(0x7da86405, 0x600003c6, 0x32663c5b, 0x93f5997f) == 0xaff4ffc1;
    assert W(b, 35) == NextW(0x600003c6, 0x3e9d7b78, 0x9d209d67, 0x3b68ba73) == 0xf10a5c62;
    assert W(b, 36) == NextW(0x3e9d7b78, 0x0183fc00, 0xec8726cb, 0xaff4ffc1) == 0x0a8b3996;
    assert W(b, 37) == NextW(0x0183fc00, 0x12dcbfdb, 0x702138a4, 0xf10a5c62) == 0x72af830a;
    assert W(b, 38) == NextW(0x12dcbfdb, 0xe2e2c38e, 0xd3b7973b, 0x0a8b3996) == 0x9409e33e;
    assert W(b, 39) == NextW(0xe2e2c38e, 0xc8215c1a, 0x93f5997f, 0x72af830a) == 0x24641522;
  }

  lemma {:induction false} Words40(b: Bytes)
    requires b == Abc()
    ensures
      W(b, 40) == 0x9f47bf94 && W(b, 41) == 0xf0a64f5a && W(b, 42) == 0x3e246a79 &&
      W(b, 43) == 0x27333ba3 && W(b, 44) == 0x0c4763f2 && W(b, 45) == 0x840abf27 &&
      W(b, 46) == 0x7a290d5d && W(b, 47) == 0x065c43da
  {
    Words24(b);
    Words32(b);
    hide Abc, WordAt;
    assert W(b, 40) == NextW(0xc8215c1a, 0xb73679a2, 0x3b68ba73, 0x9409e33e) == 0x9f47bf94;
    assert W(b, 41) == NextW(0xb73679a2, 0xe5bc3909, 0xaff4ffc1, 0x24641522) == 0xf0a64f5a;
    assert W(b, 42) == NextW(0xe5bc3909, 0x32663c5b, 0xf10a5c62, 0x9f47bf94) == 0x3e246a79;
    assert W(b, 43) == NextW(0x32663c5b, 0x9d209d67, 0x0a8b3996, 0xf0a64f5a) == 0x27333ba3;
    assert W(b, 44) == NextW(0x9d209d67, 0xec8726cb, 0x72af830a, 0x3e246a79) == 0x0c4763f2;
    assert W(b, 45) == NextW(0xec8726cb, 0x702138a4, 0x9409e33e, 0x27333ba3) == 0x840abf27;
    assert W(b, 46) == NextW(0x702138a4, 0xd3b7973b, 0x24641522, 0x0c4763f2) == 0x7a290d5d;
    assert W(b, 47) == NextW(0xd3b7973b, 0x93f5997f, 0x9f47bf94, 0x840abf27) == 0x065c43da;
  }

  lemma {:induction false} Words48(b: Bytes)
    requires b == Abc()
    ensures
      W(b, 48) == 0xfb3e89cb && W(b, 49) == 0xcc7617db && W(b, 50) == 0xb9e66c34 &&
      W(b, 51) == 0xa9993667 && W(b, 52) == 0x84badedd && W(b, 53) == 0xc21462bc &&
      W(b, 54) == 0x1487472c && W(b, 55) == 0xb20f7a99
  {
    Words32(b);
    Words40(b);
    hide Abc, WordAt;
    assert W(b, 48) == NextW(0x93f5997f, 0x3b68ba73, 0xf0a64f5a, 0x7a290d5d) == 0xfb3e89cb;
    assert W(b, 49) == NextW(0x3b68ba73, 0xaff4ffc1, 0x3e246a79, 0x065c43da) == 0xcc7617db;
    assert W(b, 50) == NextW(0xaff4ffc1, 0xf10a5c62, 0x27333ba3, 0xfb3e89cb) == 0xb9e66c34;
    assert W(b, 51) == NextW(0xf10a5c62, 0x0a8b3996, 0x0c4763f2, 0xcc7617db) == 0xa9993667;
    assert W(b, 52) == NextW(0x0a8b3996, 0x72af830a, 0x840abf27, 0xb9e66c34) == 0x84badedd;
    assert W(b, 53) == NextW(0x72af830a, 0x9409e33e, 0x7a290d5d, 0xa9993667) == 0xc21462bc;
    assert W(b, 54) == NextW(0x9409e33e, 0x24641522, 0x065c43da, 0x84badedd) == 0x1487472c;
    assert W(b, 55) == NextW(0x24641522, 0x9f47bf94, 0xfb3e89cb, 0xc21462bc) == 0xb20f7a99;
  }

  lemma {:induction false} Words56(b: Bytes)
    requires b == Abc()
    ensures
      W(b, 56) == 0xef57b9cd && W(b, 57) == 0xebe6b238 && W(b, 58) == 0x9fe3095e &&
      W(b, 59) == 0x78bc8d4b && W(b, 60) == 0xa43fcf15 && W(b, 61) == 0x668b2ff8 &&
      W(b, 62) == 0xeeaba2cc && W(b, 63) == 0x12b1edeb
  {
    Words40(b);
    Words48(b);
    hide Abc, WordAt;
    assert W(b, 56) == NextW(0x9f47bf94, 0xf0a64f5a, 0xcc7617db, 0x1487472c) == 0xef57b9cd;
    assert W(b, 57) == NextW(0xf0a64f5a, 0x3e246a79, 0xb9e66c34, 0xb20f7a99) == 0xebe6b238;
    assert W(b, 58) == NextW(0x3e246a79, 0x27333ba3, 0xa9993667, 0xef57b9cd) == 0x9fe3095e;
    assert W(b, 59) == NextW(0x27333ba3, 0x0c4763f2, 0x84badedd, 0xebe6b238) == 0x78bc8d4b;
    assert W(b, 60) == NextW(0x0c4763f2, 0x840abf27, 0xc21462bc, 0x9fe3095e) == 0xa43fcf15;
    assert W(b, 61) == NextW(0x840abf27, 0x7a290d5d, 0x1487472c, 0x78bc8d4b) == 0x668b2ff8;
    assert W(b, 62) == NextW(0x7a290d5d, 0x065c43da, 0xb20f7a99, 0xa43fcf15) == 0xeeaba2cc;
    assert W(b, 63) == NextW(0x065c43da, 0xfb3e89cb, 0xef57b9cd, 0x668b2ff8) == 0x12b1edeb;
  }

  // ---------- the rounds ----------

  lemma {:induction false} NextRound(b: Bytes, t: nat, v: Vars, k: Word, w: Word)
    requires t < 64 && b == Abc() && Rounds(VarsOf(IV()), b, t) == v && K(t) == k && W(b, t) == w
    ensures Rounds(VarsOf(IV()), b, t + 1) == Round(v, k, w)
  {
    hide Abc, IV, K, W, Round;
  }

  lemma {:induction false} Constants0()
    ensures
      K(0) == 0x428a2f98 && K(1) == 0x71374491 && K(2) == 0xb5c0fbcf && K(3) == 0xe9b5dba5 && K(4) == 0x3956c25b &&
      K(5) == 0x59f111f1 && K(6) == 0x923f82a4 && K(7) == 0xab1c5ed5
  {
  }

  lemma {:induction false} Rounds8(b: Bytes)
    requires b == Abc()
    ensures Rounds(VarsOf(IV()), b, 8) ==
            Vars(0x85a07b5f, 0xe5030380, 0x2b4209f5, 0x04409a6a, 0x0c657a79, 0x9b27a401, 0x714260ad, 0x43ada245)
  {
    hide Abc, IV, K, W, Rounds, VarsOf;
    FirstVars(b);
    Constants0();
    Words0(b);
    NextRound(b, 0,
              Vars(0x6a09e667, 0xbb67ae85, 0x3c6ef372, 0xa54ff53a, 0x510e527f, 0x9b05688c, 0x1f83d9ab, 0x5be0cd19),
              0x428a2f98, 0x61626380);
    NextRound(b, 1,
              Vars(0x5d6aebcd, 0x6a09e667, 0xbb67ae85, 0x3c6ef372, 0xfa2a4622, 0x510e527f, 0x9b05688c, 0x1f83d9ab),
              0x71374491, 0x00000000);
    NextRound(b, 2,
              Vars(0x5a6ad9ad, 0x5d6aebcd, 0x6a09e667, 0xbb67ae85, 0x78ce7989, 0xfa2a4622, 0x510e527f, 0x9b05688c),
              0xb5c0fbcf, 0x00000000);
    NextRound(b, 3,
              Vars(0xc8c347a7, 0x5a6ad9ad, 0x5d6aebcd, 0x6a09e667, 0xf92939eb, 0x78ce7989, 0xfa2a4622, 0x510e527f),
              0xe9b5dba5, 0x00000000);
    NextRound(b, 4,
              Vars(0xd550f666, 0xc8c347a7, 0x5a6ad9ad, 0x5d6aebcd, 0x24e00850, 0xf92939eb, 0x78ce7989, 0xfa2a4622),
              0x3956c25b, 0x00000000);
    NextRound(b, 5,
              Vars(0x04409a6a, 0xd550f666, 0xc8c347a7, 0x5a6ad9ad, 0x43ada245, 0x24e00850, 0xf92939eb, 0x78ce7989),
              0x59f111f1, 0x00000000);
    NextRound(b, 6,
              Vars(0x2b4209f5, 0x04409a6a, 0xd550f666, 0xc8c347a7, 0x714260ad, 0x43ada245, 0x24e00850, 0xf92939eb),
              0x923f82a4, 0x00000000);
    NextRound(b, 7,
              Vars(0xe5030380, 0x2b4209f5, 0x04409a6a, 0xd550f666, 0x9b27a401, 0x714260ad, 0x43ada245, 0x24e00850),
              0xab1c5ed5, 0x00000000);
  }

  lemma {:induction false} Constants8()
    ensures
      K(8) == 0xd807aa98 && K(9) == 0x12835b01 && K(10) == 0x243185be && K(11) == 0x550c7dc3 &&
      K(12) == 0x72be5d74 && K(13) == 0x80deb1fe && K(14) == 0x9bdc06a7 && K(15) == 0xc19bf174
  {
  }

  lemma {:induction false} Rounds16(b: Bytes)
    requires b == Abc()
    ensures Rounds(VarsOf(IV()), b, 16) ==
            Vars(0xb0fa238e, 0xc0645fde, 0xd932eb16, 0x87912990, 0x07590dcd, 0x0b92f20c, 0x745a48de, 0x1e578218)
  {
    hide Abc, IV, K, W, Rounds, VarsOf;
    Rounds8(b);
    Constants8();
    Words0(b);
    NextRound(b, 8,
              Vars(0x85a07b5f, 0xe5030380, 0x2b4209f5, 0x04409a6a, 0x0c657a79, 0x9b27a401, 0x714260ad, 0x43ada245),
              0xd807aa98, 0x00000000);
    NextRound(b, 9,
              Vars(0x8e04ecb9, 0x85a07b5f, 0xe5030380, 0x2b4209f5, 0x32ca2d8c, 0x0c657a79, 0x9b27a401, 0x714260ad),
              0x12835b01, 0x00000000);
    NextRound(b, 10,
              Vars(0x8c87346b, 0x8e04ecb9, 0x85a07b5f, 0xe5030380, 0x1cc92596, 0x32ca2d8c, 0x0c657a79, 0x9b27a401),
              0x243185be, 0x00000000);
    NextRound(b, 11,
              Vars(0x4798a3f4, 0x8c87346b, 0x8e04ecb9, 0x85a07b5f, 0x436b23e8, 0x1cc92596, 0x32ca2d8c, 0x0c657a79),
              0x550c7dc3, 0x00000000);
    NextRound(b, 12,
              Vars(0xf71fc5a9, 0x4798a3f4, 0x8c87346b, 0x8e04ecb9, 0x816fd6e9, 0x436b23e8, 0x1cc92596, 0x32ca2d8c),
              0x72be5d74, 0x00000000);
    NextRound(b, 13,
              Vars(0x87912990, 0xf71fc5a9, 0x4798a3f4, 0x8c87346b, 0x1e578218, 0x816fd6e9, 0x436b23e8, 0x1cc92596),
              0x80deb1fe, 0x00000000);
    NextRound(b, 14,
              Vars(0xd932eb16, 0x87912990, 0xf71fc5a9, 0x4798a3f4, 0x745a48de, 0x1e578218, 0x816fd6e9, 0x436b23e8),
              0x9bdc06a7, 0x00000000);
    NextRound(b, 15,
              Vars(0xc0645fde, 0xd932eb16, 0x87912990, 0xf71fc5a9, 0x0b92f20c, 0x745a48de, 0x1e578218, 0x816fd6e9),
              0xc19bf174, 0x00000018);
  }

  lemma {:induction false} Constants16()
    ensures
      K(16) == 0xe49b69c1 && K(17) == 0xefbe4786 && K(18) == 0x0fc19dc6 && K(19) == 0x240ca1cc &&
      K(20) == 0x2de92c6f && K(21) == 0x4a7484aa && K(22) == 0x5cb0a9dc && K(23) == 0x76f988da
  {
  }

  lemma {:induction false} Rounds24(b: Bytes)
    requires b == Abc()
    ensures Rounds(VarsOf(IV()), b, 24) ==
            Vars(0xc5d53d8d, 0xa7a3623f, 0xc2606d6d, 0x9dc68b63, 0xaa47c347, 0x49f5114a, 0xe1257970, 0x8ada8930)
  {
    hide Abc, IV, K, W, Rounds, VarsOf;
    Rounds16(b);
    Constants16();
    Words16(b);
    NextRound(b, 16,
              Vars(0xb0fa238e, 0xc0645fde, 0xd932eb16, 0x87912990, 0x07590dcd, 0x0b92f20c, 0x745a48de, 0x1e578218),
              0xe49b69c1, 0x61626380);
    NextRound(b, 17,
              Vars(0x21da9a9b, 0xb0fa238e, 0xc0645fde, 0xd932eb16, 0x8034229c, 0x07590dcd, 0x0b92f20c, 0x745a48de),
              0xefbe4786, 0x000f0000);
    NextRound(b, 18,
              Vars(0xc2fbd9d1, 0x21da9a9b, 0xb0fa238e, 0xc0645fde, 0x846ee454, 0x8034229c, 0x07590dcd, 0x0b92f20c),
              0x0fc19dc6, 0x7da86405);
    NextRound(b, 19,
              Vars(0xfe777bbf, 0xc2fbd9d1, 0x21da9a9b, 0xb0fa238e, 0xcc899961, 0x846ee454, 0x8034229c, 0x07590dcd),
              0x240ca1cc, 0x600003c6);
    NextRound(b, 20,
              Vars(0xe1f20c33, 0xfe777bbf, 0xc2fbd9d1, 0x21da9a9b, 0xb0638179, 0xcc899961, 0x846ee454, 0x8034229c),
              0x2de92c6f, 0x3e9d7b78);
    NextRound(b, 21,
              Vars(0x9dc68b63, 0xe1f20c33, 0xfe777bbf, 0xc2fbd9d1, 0x8ada8930, 0xb0638179, 0xcc899961, 0x846ee454),
              0x4a7484aa, 0x0183fc00);
    NextRound(b, 22,
              Vars(0xc2606d6d, 0x9dc68b63, 0xe1f20c33, 0xfe777bbf, 0xe1257970, 0x8ada8930, 0xb0638179, 0xcc899961),
              0x5cb0a9dc, 0x12dcbfdb);
    NextRound(b, 23,
              Vars(0xa7a3623f, 0xc2606d6d, 0x9dc68b63, 0xe1f20c33, 0x49f5114a, 0xe1257970, 0x8ada8930, 0xb0638179),
              0x76f988da, 0xe2e2c38e);
  }

  lemma {:induction false} Constants24()
    ensures
      K(24) == 0x983e5152 && K(25) == 0xa831c66d && K(26) == 0xb00327c8 && K(27) == 0xbf597fc7 &&
      K(28) == 0xc6e00bf3 && K(29) == 0xd5a79147 && K(30) == 0x06ca6351 && K(31) == 0x14292967
  {
  }

  lemma {:induction false} Rounds32(b: Bytes)
    requires b == Abc()
    ensures Rounds(VarsOf(IV()), b, 32) ==
            Vars(0x73b33bf5, 0xea992a22, 0xa0060b30, 0x363482c9, 0xba591112, 0x0109ab3a, 0xade79437, 0x6112a3b7)
  {
    hide Abc, IV, K, W, Rounds, VarsOf;
    Rounds24(b);
    Constants24();
    Words24(b);
    NextRound(b, 24,
              Vars(0xc5d53d8d, 0xa7a3623f, 0xc2606d6d, 0x9dc68b63, 0xaa47c347, 0x49f5114a, 0xe1257970, 0x8ada8930),
              0x983e5152, 0xc8215c1a);
    NextRound(b, 25,
              Vars(0x1c2c2838, 0xc5d53d8d, 0xa7a3623f, 0xc2606d6d, 0x2823ef91, 0xaa47c347, 0x49f5114a, 0xe1257970),
              0xa831c66d, 0xb73679a2);
    NextRound(b, 26,
              Vars(0xcde8037d, 0x1c2c2838, 0xc5d53d8d, 0xa7a3623f, 0x14383d8e, 0x2823ef91, 0xaa47c347, 0x49f5114a),
              0xb00327c8, 0xe5bc3909);
    NextRound(b, 27,
              Vars(0xb62ec4bc, 0xcde8037d, 0x1c2c2838, 0xc5d53d8d, 0xc74c6516, 0x14383d8e, 0x2823ef91, 0xaa47c347),
              0xbf597fc7, 0x32663c5b);
    NextRound(b, 28,
              Vars(0x77d37528, 0xb62ec4bc, 0xcde8037d, 0x1c2c2838, 0xedffbff8, 0xc74c6516, 0x14383d8e, 0x2823ef91),
              0xc6e00bf3, 0x9d209d67);
    NextRound(b, 29,
              Vars(0x363482c9, 0x77d37528, 0xb62ec4bc, 0xcde8037d, 0x6112a3b7, 0xedffbff8, 0xc74c6516, 0x14383d8e),
              0xd5a79147, 0xec8726cb);
    NextRound(b, 30,
              Vars(0xa0060b30, 0x363482c9, 0x77d37528, 0xb62ec4bc, 0xade79437, 0x6112a3b7, 0xedffbff8, 0xc74c6516),
              0x06ca6351, 0x702138a4);
    NextRound(b, 31,
              Vars(0xea992a22, 0xa0060b30, 0x363482c9, 0x77d37528, 0x0109ab3a, 0xade79437, 0x6112a3b7, 0xedffbff8),
              0x14292967, 0xd3b7973b);
  }

  lemma {:induction false} Constants32()
    ensures
      K(32) == 0x27b70a85 && K(33) == 0x2e1b2138 && K(34) == 0x4d2c6dfc && K(35) == 0x53380d13 &&
      K(36) == 0x650a7354 && K(37) == 0x766a0abb && K(38) == 0x81c2c92e && K(39) == 0x92722c85
  {
  }

  lemma {:induction false} Rounds40(b: Bytes)
    requires b == Abc()
    ensures Rounds(VarsOf(IV()), b, 40) ==
            Vars(0x79ea687a, 0x6dc57a8a, 0x34df1604, 0x41a65cb1, 0x1efbc0a0, 0xf0781bc8, 0xa507a53d, 0x0772a26b)
  {
    hide Abc, IV, K, W, Rounds, VarsOf;
    Rounds32(b);
    Constants32();
    Words32(b);
    NextRound(b, 32,
              Vars(0x73b33bf5, 0xea992a22, 0xa0060b30, 0x363482c9, 0xba591112, 0x0109ab3a, 0xade79437, 0x6112a3b7),
              0x27b70a85, 0x93f5997f);
    NextRound(b, 33,
              Vars(0x98e12507, 0x73b33bf5, 0xea992a22, 0xa0060b30, 0x9cd9f5f6, 0xba591112, 0x0109ab3a, 0xade79437),
              0x2e1b2138, 0x3b68ba73);
    NextRound(b, 34,
              Vars(0xfe604df5, 0x98e12507, 0x73b33bf5, 0xea992a22, 0x59249dd3, 0x9cd9f5f6, 0xba591112, 0x0109ab3a),
              0x4d2c6dfc, 0xaff4ffc1);
    NextRound(b, 35,
              Vars(0xa9a7738c, 0xfe604df5, 0x98e12507, 0x73b33bf5, 0x085f3833, 0x59249dd3, 0x9cd9f5f6, 0xba591112),
              0x53380d13, 0xf10a5c62);
    NextRound(b, 36,
              Vars(0x65a0cfe4, 0xa9a7738c, 0xfe604df5, 0x98e12507, 0xf4b002d6, 0x085f3833, 0x59249dd3, 0x9cd9f5f6),
              0x650a7354, 0x0a8b3996);
    NextRound(b, 37,
              Vars(0x41a65cb1, 0x65a0cfe4, 0xa9a7738c, 0xfe604df5, 0x0772a26b, 0xf4b002d6, 0x085f3833, 0x59249dd3),
              0x766a0abb, 0x72af830a);
    NextRound(b, 38,
              Vars(0x34df1604, 0x41a65cb1, 0x65a0cfe4, 0xa9a7738c, 0xa507a53d, 0x0772a26b, 0xf4b002d6, 0x085f3833),
              0x81c2c92e, 0x9409e33e);
    NextRound(b, 39,
              Vars(0x6dc57a8a, 0x34df1604, 0x41a65cb1, 0x65a0cfe4, 0xf0781bc8, 0xa507a53d, 0x0772a26b, 0xf4b002d6),
              0x92722c85, 0x24641522);
  }

  lemma {:induction false} Constants40()
    ensures
      K(40) == 0xa2bfe8a1 && K(41) == 0xa81a664b && K(42) == 0xc24b8b70 && K(43) == 0xc76c51a3 &&
      K(44) == 0xd192e819 && K(45) == 0xd6990624 && K(46) == 0xf40e3585 && K(47) == 0x106aa070
  {
  }

  lemma {:induction false} Rounds48(b: Bytes)
    requires b == Abc()
    ensures Rounds(VarsOf(IV()), b, 48) ==
            Vars(0x4172328d, 0xa14c14b0, 0x72ab4b91, 0x26628815, 0xfecf0bc6, 0xd57b94a9, 0xb7755da1, 0xa80f11f0)
  {
    hide Abc, IV, K, W, Rounds, VarsOf;
    Rounds40(b);
    Constants40();
    Words40(b);
    NextRound(b, 40,
              Vars(0x79ea687a, 0x6dc57a8a, 0x34df1604, 0x41a65cb1, 0x1efbc0a0, 0xf0781bc8, 0xa507a53d, 0x0772a26b),
              0xa2bfe8a1, 0x9f47bf94);
    NextRound(b, 41,
              Vars(0xd6670766, 0x79ea687a, 0x6dc57a8a, 0x34df1604, 0x26352d63, 0x1efbc0a0, 0xf0781bc8, 0xa507a53d),
              0xa81a664b, 0xf0a64f5a);
    NextRound(b, 42,
              Vars(0xdf46652f, 0xd6670766, 0x79ea687a, 0x6dc57a8a, 0x838b2711, 0x26352d63, 0x1efbc0a0, 0xf0781bc8),
              0xc24b8b70, 0x3e246a79);
    NextRound(b, 43,
              Vars(0x17aa0dfe, 0xdf46652f, 0xd6670766, 0x79ea687a, 0xdecd4715, 0x838b2711, 0x26352d63, 0x1efbc0a0),
              0xc76c51a3, 0x27333ba3);
    NextRound(b, 44,
              Vars(0x9d4baf93, 0x17aa0dfe, 0xdf46652f, 0xd6670766, 0xfda24c2e, 0xdecd4715, 0x838b2711, 0x26352d63),
              0xd192e819, 0x0c4763f2);
    NextRound(b, 45,
              Vars(0x26628815, 0x9d4baf93, 0x17aa0dfe, 0xdf46652f, 0xa80f11f0, 0xfda24c2e, 0xdecd4715, 0x838b2711),
              0xd6990624, 0x840abf27);
    NextRound(b, 46,
              Vars(0x72ab4b91, 0x26628815, 0x9d4baf93, 0x17aa0dfe, 0xb7755da1, 0xa80f11f0, 0xfda24c2e, 0xdecd4715),
              0xf40e3585, 0x7a290d5d);
    NextRound(b, 47,
              Vars(0xa14c14b0, 0x72ab4b91, 0x26628815, 0x9d4baf93, 0xd57b94a9, 0xb7755da1, 0xa80f11f0, 0xfda24c2e),
              0x106aa070, 0x065c43da);
  }

  lemma {:induction false} Constants48()
    ensures
      K(48) == 0x19a4c116 && K(49) == 0x1e376c08 && K(50) == 0x2748774c && K(51) == 0x34b0bcb5 &&
      K(52) == 0x391c0cb3 && K(53) == 0x4ed8aa4a && K(54) == 0x5b9cca4f && K(55) == 0x682e6ff3
  {
  }

  lemma {:induction false} Rounds56(b: Bytes)
    requires b == Abc()
    ensures Rounds(VarsOf(IV()), b, 56) ==
            Vars(0x38cc9913, 0x3ec45cdb, 0xf5702fdb, 0x101fd28f, 0x54cb266b, 0xe50e1b4f, 0x9f4787c3, 0x529e7d00)
  {
    hide Abc, IV, K, W, Rounds, VarsOf;
    Rounds48(b);
    Constants48();
    Words48(b);
    NextRound(b, 48,
              Vars(0x4172328d, 0xa14c14b0, 0x72ab4b91, 0x26628815, 0xfecf0bc6, 0xd57b94a9, 0xb7755da1, 0xa80f11f0),
              0x19a4c116, 0xfb3e89cb);
    NextRound(b, 49,
              Vars(0x05757ceb, 0x4172328d, 0xa14c14b0, 0x72ab4b91, 0xbd714038, 0xfecf0bc6, 0xd57b94a9, 0xb7755da1),
              0x1e376c08, 0xcc7617db);
    NextRound(b, 50,
              Vars(0xf11bfaa8, 0x05757ceb, 0x4172328d, 0xa14c14b0, 0x6e5c390c, 0xbd714038, 0xfecf0bc6, 0xd57b94a9),
              0x2748774c, 0xb9e66c34);
    NextRound(b, 51,
              Vars(0x7a0508a1, 0xf11bfaa8, 0x05757ceb, 0x4172328d, 0x52f1ccf7, 0x6e5c390c, 0xbd714038, 0xfecf0bc6),
              0x34b0bcb5, 0xa9993667);
    NextRound(b, 52,
              Vars(0x886e7a22, 0x7a0508a1, 0xf11bfaa8, 0x05757ceb, 0x49231c1e, 0x52f1ccf7, 0x6e5c390c, 0xbd714038),
              0x391c0cb3, 0x84badedd);
    NextRound(b, 53,
              Vars(0x101fd28f, 0x886e7a22, 0x7a0508a1, 0xf11bfaa8, 0x529e7d00, 0x49231c1e, 0x52f1ccf7, 0x6e5c390c),
              0x4ed8aa4a, 0xc21462bc);
    NextRound(b, 54,
              Vars(0xf5702fdb, 0x101fd28f, 0x886e7a22, 0x7a0508a1, 0x9f4787c3, 0x529e7d00, 0x49231c1e, 0x52f1ccf7),
              0x5b9cca4f, 0x1487472c);
    NextRound(b, 55,
              Vars(0x3ec45cdb, 0xf5702fdb, 0x101fd28f, 0x886e7a22, 0xe50e1b4f, 0x9f4787c3, 0x529e7d00, 0x49231c1e),
              0x682e6ff3, 0xb20f7a99);
  }

  lemma {:induction false} Constants56()
    ensures
      K(56) == 0x748f82ee && K(57) == 0x78a5636f && K(58) == 0x84c87814 && K(59) == 0x8cc70208 &&
      K(60) == 0x90befffa && K(61) == 0xa4506ceb && K(62) == 0xbef9a3f7 && K(63) == 0xc67178f2
  {
  }

  lemma {:induction false} Rounds64(b: Bytes)
    requires b == Abc()
    ensures Rounds(VarsOf(IV()), b, 64) ==
            Vars(0x506e3058, 0xd39a2165, 0x04d24d6c, 0xb85e2ce9, 0x5ef50f24, 0xfb121210, 0x948d25b6, 0x961f4894)
  {
    hide Abc, IV, K, W, Rounds, VarsOf;
    Rounds56(b);
    Constants56();
    Words56(b);
    NextRound(b, 56,
              Vars(0x38cc9913, 0x3ec45cdb, 0xf5702fdb, 0x101fd28f, 0x54cb266b, 0xe50e1b4f, 0x9f4787c3, 0x529e7d00),
              0x748f82ee, 0xef57b9cd);
    NextRound(b, 57,
              Vars(0xfcd1887b, 0x38cc9913, 0x3ec45cdb, 0xf5702fdb, 0x9b5e906c, 0x54cb266b, 0xe50e1b4f, 0x9f4787c3),
              0x78a5636f, 0xebe6b238);
    NextRound(b, 58,
              Vars(0xc062d46f, 0xfcd1887b, 0x38cc9913, 0x3ec45cdb, 0x7e44008e, 0x9b5e906c, 0x54cb266b, 0xe50e1b4f),
              0x84c87814, 0x9fe3095e);
    NextRound(b, 59,
              Vars(0xffb70472, 0xc062d46f, 0xfcd1887b, 0x38cc9913, 0x6d83bfc6, 0x7e44008e, 0x9b5e906c, 0x54cb266b),
              0x8cc70208, 0x78bc8d4b);
    NextRound(b, 60,
              Vars(0xb6ae8fff, 0xffb70472, 0xc062d46f, 0xfcd1887b, 0xb21bad3d, 0x6d83bfc6, 0x7e44008e, 0x9b5e906c),
              0x90befffa, 0xa43fcf15);
    NextRound(b, 61,
              Vars(0xb85e2ce9, 0xb6ae8fff, 0xffb70472, 0xc062d46f, 0x961f4894, 0xb21bad3d, 0x6d83bfc6, 0x7e44008e),
              0xa4506ceb, 0x668b2ff8);
    NextRound(b, 62,
              Vars(0x04d24d6c, 0xb85e2ce9, 0xb6ae8fff, 0xffb70472, 0x948d25b6, 0x961f4894, 0xb21bad3d, 0x6d83bfc6),
              0xbef9a3f7, 0xeeaba2cc);
    NextRound(b, 63,
              Vars(0xd39a2165, 0x04d24d6c, 0xb85e2ce9, 0xb6ae8fff, 0xfb121210, 0x948d25b6, 0x961f4894, 0xb21bad3d),
              0xc67178f2, 0x12b1edeb);
  }

  lemma {:induction false} FirstVars(b: Bytes)
    requires b == Abc()
    ensures Rounds(VarsOf(IV()), b, 0) ==
            Vars(0x6a09e667, 0xbb67ae85, 0x3c6ef372, 0xa54ff53a, 0x510e527f, 0x9b05688c, 0x1f83d9ab, 0x5be0cd19)
  {
    hide Abc;
  }

  // ---------- the digest ----------

  lemma {:induction false} AbcDigest()
    ensures Hash([0x61, 0x62, 0x63]) ==
            [0xba, 0x78, 0x16, 0xbf, 0x8f, 0x01, 0xcf, 0xea, 0x41, 0x41, 0x40, 0xde, 0x5d, 0xae, 0x22, 0x23,
             0xb0, 0x03, 0x61, 0xa3, 0x96, 0x17, 0x7a, 0x9c, 0xb4, 0x10, 0xff, 0x61, 0xf2, 0x00, 0x15, 0xad]
  {
    PaddedAbc();
    CompressedAbc(Abc());
    OneBlock();
    DigestBytes(HashBlocks(IV(), Abc()));
  }

  lemma {:induction false} PaddedAbc()
    ensures Padded([0x61, 0x62, 0x63]) == Abc()
  {
    assert ZeroCount(3) == 52;
    LengthOfAbc();
    hide BE64;
  }

  lemma {:induction false} LengthOfAbc()
    ensures BE64(24) == Zeros(7) + [24]
  {
    assert ShiftRight8(24, 0) == 24;
    forall i | 0 < i < 8
      ensures ShiftRight8(24, i) == 0
    {
      ShiftedOut(i - 1);
    }
  }

  lemma {:induction false} ShiftedOut(i: nat)
    ensures ShiftRight8(0, i) == 0 && ShiftRight8(24, i + 1) == 0
  {
    if i > 0 {
      ShiftedOut(i - 1);
    }
  }

  lemma {:induction false} CompressedAbc(b: Bytes)
    requires b == Abc()
    ensures Compressed(IV(), b) == [0xba7816bf, 0x8f01cfea, 0x414140de, 0x5dae2223,
                                        0xb00361a3, 0x96177a9c, 0xb410ff61, 0xf20015ad]
  {
    Rounds64(b);
    hide Abc, Rounds;
  }

  lemma {:induction false} OneBlock()
    ensures HashBlocks(IV(), Abc()) == Compressed(IV(), Abc())
  {
    hide Abc, Compressed, IV;
    HashBlocksConcat(IV(), [], Abc());
    assert [] + Abc() == Abc();
  }

  lemma {:induction false} DigestBytes(h: seq<Word>)
    requires h == [0xba7816bf, 0x8f01cfea, 0x414140de, 0x5dae2223,
                   0xb00361a3, 0x96177a9c, 0xb410ff61, 0xf20015ad]
    ensures Digest(h) ==
            [0xba, 0x78, 0x16, 0xbf, 0x8f, 0x01, 0xcf, 0xea, 0x41, 0x41, 0x40, 0xde, 0x5d, 0xae, 0x22, 0x23,
             0xb0, 0x03, 0x61, 0xa3, 0x96, 0x17, 0x7a, 0x9c, 0xb4, 0x10, 0xff, 0x61, 0xf2, 0x00, 0x15, 0xad]
  {
    hide WordsBytes;
    FrontHalf(h);
    BackHalf(h);
    assert h[..8] == h;
  }

  lemma {:induction false} FrontHalf(h: seq<Word>)
    requires |h| == 8 && h[..4] == [0xba7816bf, 0x8f01cfea, 0x414140de, 0x5dae2223]
    ensures WordsBytes(h[..4]) == [0xba, 0x78, 0x16, 0xbf, 0x8f, 0x01, 0xcf, 0xea,
                                   0x41, 0x41, 0x40, 0xde, 0x5d, 0xae, 0x22, 0x23]
  {
    FrontBytes();
    hide WordBytes, WordsBytes;
    NoWords();
    assert h[..0] == [] && h[0] == h[..4][0] && h[1] == h[..4][1] && h[2] == h[..4][2] && h[3] == h[..4][3];
    Unfold(h, 0);
    Unfold(h, 1);
    Unfold(h, 2);
    Unfold(h, 3);
  }

  lemma {:induction false} BackHalf(h: seq<Word>)
    requires |h| == 8 && h[4..] == [0xb00361a3, 0x96177a9c, 0xb410ff61, 0xf20015ad]
    ensures WordsBytes(h[..8]) ==
            WordsBytes(h[..4]) + [0xb0, 0x03, 0x61, 0xa3, 0x96, 0x17, 0x7a, 0x9c,
                                  0xb4, 0x10, 0xff, 0x61, 0xf2, 0x00, 0x15, 0xad]
  {
    BackBytes();
    hide WordBytes, WordsBytes;
    assert h[4] == h[4..][0] && h[5] == h[4..][1] && h[6] == h[4..][2] && h[7] == h[4..][3];
    Unfold(h, 4);
    Unfold(h, 5);
    Unfold(h, 6);
    Unfold(h, 7);
  }

  lemma {:induction false} NoWords()
    ensures WordsBytes([]) == []
  {
  }

  lemma {:induction false} Unfold(h: seq<Word>, i: nat)
    requires i < |h|
    ensures WordsBytes(h[..i + 1]) == WordsBytes(h[..i]) + WordBytes(h[i])
  {
    assert h[..i + 1][..i] == h[..i];
  }

  lemma {:induction false} FrontBytes()
    ensures
      WordBytes(0xba7816bf) == [0xba, 0x78, 0x16, 0xbf] && WordBytes(0x8f01cfea) == [0x8f, 0x01, 0xcf, 0xea] &&
      WordBytes(0x414140de) == [0x41, 0x41, 0x40, 0xde] && WordBytes(0x5dae2223) == [0x5d, 0xae, 0x22, 0x23]
  {
  }

  lemma {:induction false} BackBytes()
    ensures
      WordBytes(0xb00361a3) == [0xb0, 0x03, 0x61, 0xa3] && WordBytes(0x96177a9c) == [0x96, 0x17, 0x7a, 0x9c] &&
      WordBytes(0xb410ff61) == [0xb4, 0x10, 0xff, 0x61] && WordBytes(0xf20015ad) == [0xf2, 0x00, 0x15, 0xad]
  {
  }

  /** The length goes out most significant byte first. */
  lemma {:induction false} LengthIsBigEndian(v: u64)
    ensures forall i :: 0 <= i < 8 ==> BE64(v)[i] == LE(v, 8)[7 - i]
    ensures FromLE(LE(v, 8)) == v
  {
    Pow256Values();
    FromLEOfLE(v, 8);
    hide LE, FromLE;
    forall i | 0 <= i < 8
      ensures BE64(v)[i] == LE(v, 8)[7 - i]
    {
      ByteAt(v, 8, 7 - i);
    }
  }

  lemma {:induction false} ByteAt(v: nat, k: nat, i: nat)
    requires i < k
    ensures LE(v, k)[i] == ShiftRight8(v, i) % 256
  {
    if i > 0 {
      ByteAt(v / 256, k - 1, i - 1);
    }
  }

  // ---------- where the constants come from ----------

  /** `frac` is the first 32 bits of the fractional part of the cube root of `p`, whose whole
      part is `whole`. */
  predicate CubeRoot(p: nat, whole: nat, frac: nat) {
    var r := whole * U32 + frac;
    frac < U32 && r * r * r <= p * (U32 * U32 * U32) < (r + 1) * (r + 1) * (r + 1)
  }

  predicate SquareRoot(p: nat, whole: nat, frac: nat) {
    var r := whole * U32 + frac;
    frac < U32 && r * r <= p * (U32 * U32) < (r + 1) * (r + 1)
  }

  lemma {:induction false} CubeRoots0()
    ensures
      CubeRoot(2, 1, K(0) as int) && CubeRoot(3, 1, K(1) as int) && CubeRoot(5, 1, K(2) as int) &&
      CubeRoot(7, 1, K(3) as int) && CubeRoot(11, 2, K(4) as int) && CubeRoot(13, 2, K(5) as int) &&
      CubeRoot(17, 2, K(6) as int) && CubeRoot(19, 2, K(7) as int)
  {
    Constants0();
    hide K;
  }

  lemma {:induction false} CubeRoots8()
    ensures
      CubeRoot(23, 2, K(8) as int) && CubeRoot(29, 3, K(9) as int) && CubeRoot(31, 3, K(10) as int) &&
      CubeRoot(37, 3, K(11) as int) && CubeRoot(41, 3, K(12) as int) && CubeRoot(43, 3, K(13) as int) &&
      CubeRoot(47, 3, K(14) as int) && CubeRoot(53, 3, K(15) as int)
  {
    Constants8();
    hide K;
  }

  lemma {:induction false} CubeRoots16()
    ensures
      CubeRoot(59, 3, K(16) as int) && CubeRoot(61, 3, K(17) as int) && CubeRoot(67, 4, K(18) as int) &&
      CubeRoot(71, 4, K(19) as int) && CubeRoot(73, 4, K(20) as int) && CubeRoot(79, 4, K(21) as int) &&
      CubeRoot(83, 4, K(22) as int) && CubeRoot(89, 4, K(23) as int)
  {
    Constants16();
    hide K;
  }

  lemma {:induction false} CubeRoots24()
    ensures
      CubeRoot(97, 4, K(24) as int) && CubeRoot(101, 4, K(25) as int) && CubeRoot(103, 4, K(26) as int) &&
      CubeRoot(107, 4, K(27) as int) && CubeRoot(109, 4, K(28) as int) && CubeRoot(113, 4, K(29) as int) &&
      CubeRoot(127, 5, K(30) as int) && CubeRoot(131, 5, K(31) as int)
  {
    Constants24();
    hide K;
  }

  lemma {:induction false} CubeRoots32()
    ensures
      CubeRoot(137, 5, K(32) as int) && CubeRoot(139, 5, K(33) as int) && CubeRoot(149, 5, K(34) as int) &&
      CubeRoot(151, 5, K(35) as int) && CubeRoot(157, 5, K(36) as int) && CubeRoot(163, 5, K(37) as int) &&
      CubeRoot(167, 5, K(38) as int) && CubeRoot(173, 5, K(39) as int)
  {
    Constants32();
    hide K;
  }

  lemma {:induction false} CubeRoots40()
    ensures
      CubeRoot(179, 5, K(40) as int) && CubeRoot(181, 5, K(41) as int) && CubeRoot(191, 5, K(42) as int) &&
      CubeRoot(193, 5, K(43) as int) && CubeRoot(197, 5, K(44) as int) && CubeRoot(199, 5, K(45) as int) &&
      CubeRoot(211, 5, K(46) as int) && CubeRoot(223, 6, K(47) as int)
  {
    Constants40();
    hide K;
  }

  lemma {:induction false} CubeRoots48()
    ensures
      CubeRoot(227, 6, K(48) as int) && CubeRoot(229, 6, K(49) as int) && CubeRoot(233, 6, K(50) as int) &&
      CubeRoot(239, 6, K(51) as int) && CubeRoot(241, 6, K(52) as int) && CubeRoot(251, 6, K(53) as int) &&
      CubeRoot(257, 6, K(54) as int) && CubeRoot(263, 6, K(55) as int)
  {
    Constants48();
    hide K;
  }

  lemma {:induction false} CubeRoots56()
    ensures
      CubeRoot(269, 6, K(56) as int) && CubeRoot(271, 6, K(57) as int) && CubeRoot(277, 6, K(58) as int) &&
      CubeRoot(281, 6, K(59) as int) && CubeRoot(283, 6, K(60) as int) && CubeRoot(293, 6, K(61) as int) &&
      CubeRoot(307, 6, K(62) as int) && CubeRoot(311, 6, K(63) as int)
  {
    Constants56();
    hide K;
  }

  lemma {:induction false} SquareRoots()
    ensures
      SquareRoot(2, 1, IV()[0] as int) && SquareRoot(3, 1, IV()[1] as int) && SquareRoot(5, 2, IV()[2] as int) &&
      SquareRoot(7, 2, IV()[3] as int) && SquareRoot(11, 3, IV()[4] as int) && SquareRoot(13, 3, IV()[5] as int) &&
      SquareRoot(17, 4, IV()[6] as int) && SquareRoot(19, 4, IV()[7] as int)
  {
  }

}
