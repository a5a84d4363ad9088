// The example of FIPS 180-2, appendix B.1: the digest of "abc". It fixes the
// constants, the rotations and the byte orders of the definition.
module Sha256Example {
  import opened Sha256s

  function Abc(): Block {
    [0x61, 0x62, 0x63, 0x80] + Zeros(52) + [0, 0, 0, 0, 0, 0, 0, 0x18]
  }

  // The words of the schedule.
  function W(t: nat): Word {
    match t
    case 0 => 0x61626380 case 1 => 0x00000000 case 2 => 0x00000000 case 3 => 0x00000000
    case 4 => 0x00000000 case 5 => 0x00000000 case 6 => 0x00000000 case 7 => 0x00000000
    case 8 => 0x00000000 case 9 => 0x00000000 case 10 => 0x00000000 case 11 => 0x00000000
    case 12 => 0x00000000 case 13 => 0x00000000 case 14 => 0x00000000 case 15 => 0x00000018
    case 16 => 0x61626380 case 17 => 0x000f0000 case 18 => 0x7da86405 case 19 => 0x600003c6
    case 20 => 0x3e9d7b78 case 21 => 0x0183fc00 case 22 => 0x12dcbfdb case 23 => 0xe2e2c38e
    case 24 => 0xc8215c1a case 25 => 0xb73679a2 case 26 => 0xe5bc3909 case 27 => 0x32663c5b
    case 28 => 0x9d209d67 case 29 => 0xec8726cb case 30 => 0x702138a4 case 31 => 0xd3b7973b
    case 32 => 0x93f5997f case 33 => 0x3b68ba73 case 34 => 0xaff4ffc1 case 35 => 0xf10a5c62
    case 36 => 0x0a8b3996 case 37 => 0x72af830a case 38 => 0x9409e33e case 39 => 0x24641522
    case 40 => 0x9f47bf94 case 41 => 0xf0a64f5a case 42 => 0x3e246a79 case 43 => 0x27333ba3
    case 44 => 0x0c4763f2 case 45 => 0x840abf27 case 46 => 0x7a290d5d case 47 => 0x065c43da
    case 48 => 0xfb3e89cb case 49 => 0xcc7617db case 50 => 0xb9e66c34 case 51 => 0xa9993667
    case 52 => 0x84badedd case 53 => 0xc21462bc case 54 => 0x1487472c case 55 => 0xb20f7a99
    case 56 => 0xef57b9cd case 57 => 0xebe6b238 case 58 => 0x9fe3095e case 59 => 0x78bc8d4b
    case 60 => 0xa43fcf15 case 61 => 0x668b2ff8 case 62 => 0xeeaba2cc case 63 => 0x12b1edeb
    case _ => 0
  }

  // The working variable a, from three rounds before the first on.
  function A(t: nat): Word {
    match t
    case 0 => 0xa54ff53a case 1 => 0x3c6ef372 case 2 => 0xbb67ae85 case 3 => 0x6a09e667
    case 4 => 0x5d6aebcd case 5 => 0x5a6ad9ad case 6 => 0xc8c347a7 case 7 => 0xd550f666
    case 8 => 0x04409a6a case 9 => 0x2b4209f5 case 10 => 0xe5030380 case 11 => 0x85a07b5f
    case 12 => 0x8e04ecb9 case 13 => 0x8c87346b case 14 => 0x4798a3f4 case 15 => 0xf71fc5a9
    case 16 => 0x87912990 case 17 => 0xd932eb16 case 18 => 0xc0645fde case 19 => 0xb0fa238e
    case 20 => 0x21da9a9b case 21 => 0xc2fbd9d1 case 22 => 0xfe777bbf case 23 => 0xe1f20c33
    case 24 => 0x9dc68b63 case 25 => 0xc2606d6d case 26 => 0xa7a3623f case 27 => 0xc5d53d8d
    case 28 => 0x1c2c2838 case 29 => 0xcde8037d case 30 => 0xb62ec4bc case 31 => 0x77d37528
    case 32 => 0x363482c9 case 33 => 0xa0060b30 case 34 => 0xea992a22 case 35 => 0x73b33bf5
    case 36 => 0x98e12507 case 37 => 0xfe604df5 case 38 => 0xa9a7738c case 39 => 0x65a0cfe4
    case 40 => 0x41a65cb1 case 41 => 0x34df1604 case 42 => 0x6dc57a8a case 43 => 0x79ea687a
    case 44 => 0xd6670766 case 45 => 0xdf46652f case 46 => 0x17aa0dfe case 47 => 0x9d4baf93
    case 48 => 0x26628815 case 49 => 0x72ab4b91 case 50 => 0xa14c14b0 case 51 => 0x4172328d
    case 52 => 0x05757ceb case 53 => 0xf11bfaa8 case 54 => 0x7a0508a1 case 55 => 0x886e7a22
    case 56 => 0x101fd28f case 57 => 0xf5702fdb case 58 => 0x3ec45cdb case 59 => 0x38cc9913
    case 60 => 0xfcd1887b case 61 => 0xc062d46f case 62 => 0xffb70472 case 63 => 0xb6ae8fff
    case 64 => 0xb85e2ce9 case 65 => 0x04d24d6c case 66 => 0xd39a2165 case 67 => 0x506e3058
    case _ => 0
  }

  // And the working variable e.
  function E(t: nat): Word {
    match t
    case 0 => 0x5be0cd19 case 1 => 0x1f83d9ab case 2 => 0x9b05688c case 3 => 0x510e527f
    case 4 => 0xfa2a4622 case 5 => 0x78ce7989 case 6 => 0xf92939eb case 7 => 0x24e00850
    case 8 => 0x43ada245 case 9 => 0x714260ad case 10 => 0x9b27a401 case 11 => 0x0c657a79
    case 12 => 0x32ca2d8c case 13 => 0x1cc92596 case 14 => 0x436b23e8 case 15 => 0x816fd6e9
    case 16 => 0x1e578218 case 17 => 0x745a48de case 18 => 0x0b92f20c case 19 => 0x07590dcd
    case 20 => 0x8034229c case 21 => 0x846ee454 case 22 => 0xcc899961 case 23 => 0xb0638179
    case 24 => 0x8ada8930 case 25 => 0xe1257970 case 26 => 0x49f5114a case 27 => 0xaa47c347
    case 28 => 0x2823ef91 case 29 => 0x14383d8e case 30 => 0xc74c6516 case 31 => 0xedffbff8
    case 32 => 0x6112a3b7 case 33 => 0xade79437 case 34 => 0x0109ab3a case 35 => 0xba591112
    case 36 => 0x9cd9f5f6 case 37 => 0x59249dd3 case 38 => 0x085f3833 case 39 => 0xf4b002d6
    case 40 => 0x0772a26b case 41 => 0xa507a53d case 42 => 0xf0781bc8 case 43 => 0x1efbc0a0
    case 44 => 0x26352d63 case 45 => 0x838b2711 case 46 => 0xdecd4715 case 47 => 0xfda24c2e
    case 48 => 0xa80f11f0 case 49 => 0xb7755da1 case 50 => 0xd57b94a9 case 51 => 0xfecf0bc6
    case 52 => 0xbd714038 case 53 => 0x6e5c390c case 54 => 0x52f1ccf7 case 55 => 0x49231c1e
    case 56 => 0x529e7d00 case 57 => 0x9f4787c3 case 58 => 0xe50e1b4f case 59 => 0x54cb266b
    case 60 => 0x9b5e906c case 61 => 0x7e44008e case 62 => 0x6d83bfc6 case 63 => 0xb21bad3d
    case 64 => 0x961f4894 case 65 => 0x948d25b6 case 66 => 0xfb121210 case 67 => 0x5ef50f24
    case _ => 0
  }

  // The other working variables are earlier values of these two.
  function State(n: nat): Hash {
    Hash(A(n + 3), A(n + 2), A(n + 1), A(n), E(n + 3), E(n + 2), E(n + 1), E(n))
  }

  // --- the schedule ---

  lemma WordsTogether()
    ensures BigEndian(0x61, 0x62, 0x63, 0x80) == 0x61626380
    ensures BigEndian(0, 0, 0, 0) == 0 && BigEndian(0, 0, 0, 0x18) == 0x18
  {
  }

  lemma FirstWords(t: nat)
    requires t < 16
    ensures Schedule(Abc(), t) == if t == 0 then 0x61626380 else if t == 15 then 0x18 else 0
  {
    hide Schedule, BigEndian;
    ScheduleAt(Abc(), t);
    WordsTogether();
  }

  lemma FirstOfTable(t: nat)
    requires t < 16
    ensures W(t) == if t == 0 then 0x61626380 else if t == 15 then 0x18 else 0
  {
  }

  lemma Expand16(t: nat)
    requires 16 <= t < 24
    ensures Expanded(W(t - 2), W(t - 7), W(t - 15), W(t - 16)) == W(t)
  {
    if t == 16 {
      assert Expanded(0x00000000, 0x00000000, 0x00000000, 0x61626380) == 0x61626380;
    } else if t == 17 {
      assert Expanded(0x00000018, 0x00000000, 0x00000000, 0x00000000) == 0x000f0000;
    } else if t == 18 {
      assert Expanded(0x61626380, 0x00000000, 0x00000000, 0x00000000) == 0x7da86405;
    } else if t == 19 {
      assert Expanded(0x000f0000, 0x00000000, 0x00000000, 0x00000000) == 0x600003c6;
    } else if t == 20 {
      assert Expanded(0x7da86405, 0x00000000, 0x00000000, 0x00000000) == 0x3e9d7b78;
    } else if t == 21 {
      assert Expanded(0x600003c6, 0x00000000, 0x00000000, 0x00000000) == 0x0183fc00;
    } else if t == 22 {
      assert Expanded(0x3e9d7b78, 0x00000018, 0x00000000, 0x00000000) == 0x12dcbfdb;
    } else if t == 23 {
      assert Expanded(0x0183fc00, 0x61626380, 0x00000000, 0x00000000) == 0xe2e2c38e;
    }
  }

  lemma Expand24(t: nat)
    requires 24 <= t < 32
    ensures Expanded(W(t - 2), W(t - 7), W(t - 15), W(t - 16)) == W(t)
  {
    if t == 24 {
      assert Expanded(0x12dcbfdb, 0x000f0000, 0x00000000, 0x00000000) == 0xc8215c1a;
    } else if t == 25 {
      assert Expanded(0xe2e2c38e, 0x7da86405, 0x00000000, 0x00000000) == 0xb73679a2;
    } else if t == 26 {
      assert Expanded(0xc8215c1a, 0x600003c6, 0x00000000, 0x00000000) == 0xe5bc3909;
    } else if t == 27 {
      assert Expanded(0xb73679a2, 0x3e9d7b78, 0x00000000, 0x00000000) == 0x32663c5b;
    } else if t == 28 {
      assert Expanded(0xe5bc3909, 0x0183fc00, 0x00000000, 0x00000000) == 0x9d209d67;
    } else if t == 29 {
      assert Expanded(0x32663c5b, 0x12dcbfdb, 0x00000000, 0x00000000) == 0xec8726cb;
    } else if t == 30 {
      assert Expanded(0x9d209d67, 0xe2e2c38e, 0x00000018, 0x00000000) == 0x702138a4;
    } else if t == 31 {
      assert Expanded(0xec8726cb, 0xc8215c1a, 0x61626380, 0x00000018) == 0xd3b7973b;
    }
  }

  lemma Expand32(t: nat)
    requires 32 <= t < 40
    ensures Expanded(W(t - 2), W(t - 7), W(t - 15), W(t - 16)) == W(t)
  {
    if t == 32 {
      assert Expanded(0x702138a4, 0xb73679a2, 0x000f0000, 0x61626380) == 0x93f5997f;
    } else if t == 33 {
      assert Expanded(0xd3b7973b, 0xe5bc3909, 0x7da86405, 0x000f0000) == 0x3b68ba73;
    } else if t == 34 {
      assert Expanded(0x93f5997f, 0x32663c5b, 0x600003c6, 0x7da86405) == 0xaff4ffc1;
    } else if t == 35 {
      assert Expanded(0x3b68ba73, 0x9d209d67, 0x3e9d7b78, 0x600003c6) == 0xf10a5c62;
    } else if t == 36 {
      assert Expanded(0xaff4ffc1, 0xec8726cb, 0x0183fc00, 0x3e9d7b78) == 0x0a8b3996;
    } else if t == 37 {
      assert Expanded(0xf10a5c62, 0x702138a4, 0x12dcbfdb, 0x0183fc00) == 0x72af830a;
    } else if t == 38 {
      assert Expanded(0x0a8b3996, 0xd3b7973b, 0xe2e2c38e, 0x12dcbfdb) == 0x9409e33e;
    } else if t == 39 {
      assert Expanded(0x72af830a, 0x93f5997f, 0xc8215c1a, 0xe2e2c38e) == 0x24641522;
    }
  }

  lemma Expand40(t: nat)
    requires 40 <= t < 48
    ensures Expanded(W(t - 2), W(t - 7), W(t - 15), W(t - 16)) == W(t)
  {
    if t == 40 {
      assert Expanded(0x9409e33e, 0x3b68ba73, 0xb73679a2, 0xc8215c1a) == 0x9f47bf94;
    } else if t == 41 {
      assert Expanded(0x24641522, 0xaff4ffc1, 0xe5bc3909, 0xb73679a2) == 0xf0a64f5a;
    } else if t == 42 {
      assert Expanded(0x9f47bf94, 0xf10a5c62, 0x32663c5b, 0xe5bc3909) == 0x3e246a79;
    } else if t == 43 {
      assert Expanded(0xf0a64f5a, 0x0a8b3996, 0x9d209d67, 0x32663c5b) == 0x27333ba3;
    } else if t == 44 {
      assert Expanded(0x3e246a79, 0x72af830a, 0xec8726cb, 0x9d209d67) == 0x0c4763f2;
    } else if t == 45 {
      assert Expanded(0x27333ba3, 0x9409e33e, 0x702138a4, 0xec8726cb) == 0x840abf27;
    } else if t == 46 {
      assert Expanded(0x0c4763f2, 0x24641522, 0xd3b7973b, 0x702138a4) == 0x7a290d5d;
    } else if t == 47 {
      assert Expanded(0x840abf27, 0x9f47bf94, 0x93f5997f, 0xd3b7973b) == 0x065c43da;
    }
  }

  lemma Expand48(t: nat)
    requires 48 <= t < 56
    ensures Expanded(W(t - 2), W(t - 7), W(t - 15), W(t - 16)) == W(t)
  {
    if t == 48 {
      assert Expanded(0x7a290d5d, 0xf0a64f5a, 0x3b68ba73, 0x93f5997f) == 0xfb3e89cb;
    } else if t == 49 {
      assert Expanded(0x065c43da, 0x3e246a79, 0xaff4ffc1, 0x3b68ba73) == 0xcc7617db;
    } else if t == 50 {
      assert Expanded(0xfb3e89cb, 0x27333ba3, 0xf10a5c62, 0xaff4ffc1) == 0xb9e66c34;
    } else if t == 51 {
      assert Expanded(0xcc7617db, 0x0c4763f2, 0x0a8b3996, 0xf10a5c62) == 0xa9993667;
    } else if t == 52 {
      assert Expanded(0xb9e66c34, 0x840abf27, 0x72af830a, 0x0a8b3996) == 0x84badedd;
    } else if t == 53 {
      assert Expanded(0xa9993667, 0x7a290d5d, 0x9409e33e, 0x72af830a) == 0xc21462bc;
    } else if t == 54 {
      assert Expanded(0x84badedd, 0x065c43da, 0x24641522, 0x9409e33e) == 0x1487472c;
    } else if t == 55 {
      assert Expanded(0xc21462bc, 0xfb3e89cb, 0x9f47bf94, 0x24641522) == 0xb20f7a99;
    }
  }

  lemma Expand56(t: nat)
    requires 56 <= t < 64
    ensures Expanded(W(t - 2), W(t - 7), W(t - 15), W(t - 16)) == W(t)
  {
    if t == 56 {
      assert Expanded(0x1487472c, 0xcc7617db, 0xf0a64f5a, 0x9f47bf94) == 0xef57b9cd;
    } else if t == 57 {
      assert Expanded(0xb20f7a99, 0xb9e66c34, 0x3e246a79, 0xf0a64f5a) == 0xebe6b238;
    } else if t == 58 {
      assert Expanded(0xef57b9cd, 0xa9993667, 0x27333ba3, 0x3e246a79) == 0x9fe3095e;
    } else if t == 59 {
      assert Expanded(0xebe6b238, 0x84badedd, 0x0c4763f2, 0x27333ba3) == 0x78bc8d4b;
    } else if t == 60 {
      assert Expanded(0x9fe3095e, 0xc21462bc, 0x840abf27, 0x0c4763f2) == 0xa43fcf15;
    } else if t == 61 {
      assert Expanded(0x78bc8d4b, 0x1487472c, 0x7a290d5d, 0x840abf27) == 0x668b2ff8;
    } else if t == 62 {
      assert Expanded(0xa43fcf15, 0xb20f7a99, 0x065c43da, 0x7a290d5d) == 0xeeaba2cc;
    } else if t == 63 {
      assert Expanded(0x668b2ff8, 0xef57b9cd, 0xfb3e89cb, 0x065c43da) == 0x12b1edeb;
    }
  }

  lemma {:induction false} ScheduleIs(t: nat)
    requires t < 64
    ensures Schedule(Abc(), t) == W(t)
  {
    hide Schedule, Expanded, W, Abc, BigEndian;
    if t < 16 {
      FirstWords(t);
      FirstOfTable(t);
    } else {
      ScheduleAt(Abc(), t);
      ScheduleIs(t - 2);
      ScheduleIs(t - 7);
      ScheduleIs(t - 15);
      ScheduleIs(t - 16);
      if t < 24 {
        Expand16(t);
      } else if t < 32 {
        Expand24(t);
      } else if t < 40 {
        Expand32(t);
      } else if t < 48 {
        Expand40(t);
      } else if t < 56 {
        Expand48(t);
      } else {
        Expand56(t);
      }
    }
  }

  // --- the rounds ---

  lemma Round0(t: nat)
    requires 0 <= t < 8
    ensures Round(State(t), K[t], W(t)) == State(t + 1)
  {
    if t == 0 {
      assert K[0] == 0x428a2f98;
    } else if t == 1 {
      assert K[1] == 0x71374491;
    } else if t == 2 {
      assert K[2] == 0xb5c0fbcf;
    } else if t == 3 {
      assert K[3] == 0xe9b5dba5;
    } else if t == 4 {
      assert K[4] == 0x3956c25b;
    } else if t == 5 {
      assert K[5] == 0x59f111f1;
    } else if t == 6 {
      assert K[6] == 0x923f82a4;
    } else if t == 7 {
      assert K[7] == 0xab1c5ed5;
    }
  }

  lemma Round8(t: nat)
    requires 8 <= t < 16
    ensures Round(State(t), K[t], W(t)) == State(t + 1)
  {
    if t == 8 {
      assert K[8] == 0xd807aa98;
    } else if t == 9 {
      assert K[9] == 0x12835b01;
    } else if t == 10 {
      assert K[10] == 0x243185be;
    } else if t == 11 {
      assert K[11] == 0x550c7dc3;
    } else if t == 12 {
      assert K[12] == 0x72be5d74;
    } else if t == 13 {
      assert K[13] == 0x80deb1fe;
    } else if t == 14 {
      assert K[14] == 0x9bdc06a7;
    } else if t == 15 {
      assert K[15] == 0xc19bf174;
    }
  }

  lemma Round16(t: nat)
    requires 16 <= t < 24
    ensures Round(State(t), K[t], W(t)) == State(t + 1)
  {
    if t == 16 {
      assert K[16] == 0xe49b69c1;
    } else if t == 17 {
      assert K[17] == 0xefbe4786;
    } else if t == 18 {
      assert K[18] == 0x0fc19dc6;
    } else if t == 19 {
      assert K[19] == 0x240ca1cc;
    } else if t == 20 {
      assert K[20] == 0x2de92c6f;
    } else if t == 21 {
      assert K[21] == 0x4a7484aa;
    } else if t == 22 {
      assert K[22] == 0x5cb0a9dc;
    } else if t == 23 {
      assert K[23] == 0x76f988da;
    }
  }

  lemma Round24(t: nat)
    requires 24 <= t < 32
    ensures Round(State(t), K[t], W(t)) == State(t + 1)
  {
    if t == 24 {
      assert K[24] == 0x983e5152;
    } else if t == 25 {
      assert K[25] == 0xa831c66d;
    } else if t == 26 {
      assert K[26] == 0xb00327c8;
    } else if t == 27 {
      assert K[27] == 0xbf597fc7;
    } else if t == 28 {
      assert K[28] == 0xc6e00bf3;
    } else if t == 29 {
      assert K[29] == 0xd5a79147;
    } else if t == 30 {
      assert K[30] == 0x06ca6351;
    } else if t == 31 {
      assert K[31] == 0x14292967;
    }
  }

  lemma Round32(t: nat)
    requires 32 <= t < 40
    ensures Round(State(t), K[t], W(t)) == State(t + 1)
  {
    if t == 32 {
      assert K[32] == 0x27b70a85;
    } else if t == 33 {
      assert K[33] == 0x2e1b2138;
    } else if t == 34 {
      assert K[34] == 0x4d2c6dfc;
    } else if t == 35 {
      assert K[35] == 0x53380d13;
    } else if t == 36 {
      assert K[36] == 0x650a7354;
    } else if t == 37 {
      assert K[37] == 0x766a0abb;
    } else if t == 38 {
      assert K[38] == 0x81c2c92e;
    } else if t == 39 {
      assert K[39] == 0x92722c85;
    }
  }

  lemma Round40(t: nat)
    requires 40 <= t < 48
    ensures Round(State(t), K[t], W(t)) == State(t + 1)
  {
    if t == 40 {
      assert K[40] == 0xa2bfe8a1;
    } else if t == 41 {
      assert K[41] == 0xa81a664b;
    } else if t == 42 {
      assert K[42] == 0xc24b8b70;
    } else if t == 43 {
      assert K[43] == 0xc76c51a3;
    } else if t == 44 {
      assert K[44] == 0xd192e819;
    } else if t == 45 {
      assert K[45] == 0xd6990624;
    } else if t == 46 {
      assert K[46] == 0xf40e3585;
    } else if t == 47 {
      assert K[47] == 0x106aa070;
    }
  }

  lemma Round48(t: nat)
    requires 48 <= t < 56
    ensures Round(State(t), K[t], W(t)) == State(t + 1)
  {
    if t == 48 {
      assert K[48] == 0x19a4c116;
    } else if t == 49 {
      assert K[49] == 0x1e376c08;
    } else if t == 50 {
      assert K[50] == 0x2748774c;
    } else if t == 51 {
      assert K[51] == 0x34b0bcb5;
    } else if t == 52 {
      assert K[52] == 0x391c0cb3;
    } else if t == 53 {
      assert K[53] == 0x4ed8aa4a;
    } else if t == 54 {
      assert K[54] == 0x5b9cca4f;
    } else if t == 55 {
      assert K[55] == 0x682e6ff3;
    }
  }

  lemma Round56(t: nat)
    requires 56 <= t < 64
    ensures Round(State(t), K[t], W(t)) == State(t + 1)
  {
    if t == 56 {
      assert K[56] == 0x748f82ee;
    } else if t == 57 {
      assert K[57] == 0x78a5636f;
    } else if t == 58 {
      assert K[58] == 0x84c87814;
    } else if t == 59 {
      assert K[59] == 0x8cc70208;
    } else if t == 60 {
      assert K[60] == 0x90befffa;
    } else if t == 61 {
      assert K[61] == 0xa4506ceb;
    } else if t == 62 {
      assert K[62] == 0xbef9a3f7;
    } else if t == 63 {
      assert K[63] == 0xc67178f2;
    }
  }

  lemma {:induction false} RoundsAre(n: nat)
    requires n <= 64
    ensures Rounds(INITIAL, Abc(), n) == State(n)
  {
    hide Schedule, Round, Abc, W;
    if n > 0 {
      RoundsAre(n - 1);
      ScheduleIs(n - 1);
      if n <= 8 {
        Round0(n - 1);
      } else if n <= 16 {
        Round8(n - 1);
      } else if n <= 24 {
        Round16(n - 1);
      } else if n <= 32 {
        Round24(n - 1);
      } else if n <= 40 {
        Round32(n - 1);
      } else if n <= 48 {
        Round40(n - 1);
      } else if n <= 56 {
        Round48(n - 1);
      } else {
        Round56(n - 1);
      }
    }
  }

  // --- the digest ---

  lemma AbcPadded()
    ensures Padded([0x61, 0x62, 0x63]) == Abc()
  {
    hide LengthField;
    AbcLength();
  }

  lemma ShortByte(bits: nat, i: nat)
    requires bits < 0x100 && i < 8
    ensures LengthByte(bits, i) == if i < 7 then 0 else bits as Byte
  {
  }

  lemma AbcLength()
    ensures LengthField(24) == [0, 0, 0, 0, 0, 0, 0, 0x18]
  {
    hide LengthByte;
    forall i | 0 <= i < 8 ensures LengthByte(24, i) == if i < 7 then 0 else 0x18 {
      ShortByte(24, i);
    }
  }

  lemma AbcCompressed()
    ensures Compress(INITIAL, Abc()) ==
            Hash(0xba7816bf, 0x8f01cfea, 0x414140de, 0x5dae2223,
                 0xb00361a3, 0x96177a9c, 0xb410ff61, 0xf20015ad)
  {
    hide Rounds, Abc;
    RoundsAre(64);
  }

  lemma AbcHashed()
    ensures HashBlocks(Abc(), 1) == Compress(INITIAL, Abc())
  {
    hide Compress, Abc;
    assert HashBlocks(Abc(), 0) == INITIAL && Abc()[0..64] == Abc();
  }

  function Bytes(w: Word): (s: seq<Byte>)
    ensures |s| == 4
  {
    [WordByte(w, 0), WordByte(w, 1), WordByte(w, 2), WordByte(w, 3)]
  }

  lemma OutputWord(v: Hash, i: nat)
    requires i < 8
    ensures Output(v)[4 * i..4 * i + 4] == Bytes(Words8(v)[i])
  {
    hide WordByte, Words8;
  }

  lemma EightParts(s: seq<Byte>)
    requires |s| == 32
    ensures s == s[0..4] + s[4..8] + s[8..12] + s[12..16] + (s[16..20] + s[20..24] + s[24..28] + s[28..32])
  {
    assert s[0..4] + s[4..8] + s[8..12] + s[12..16] == s[0..16];
    assert s[16..20] + s[20..24] + s[24..28] + s[28..32] == s[16..32];
  }

  lemma FirstBytes(v: Hash)
    ensures var s := Output(v);
            s[0..4] == Bytes(v.a) && s[4..8] == Bytes(v.b) && s[8..12] == Bytes(v.c) && s[12..16] == Bytes(v.d)
  {
    hide Output, Bytes;
    OutputWord(v, 0);
    OutputWord(v, 1);
    OutputWord(v, 2);
    OutputWord(v, 3);
  }

  lemma LastBytes(v: Hash)
    ensures var s := Output(v);
            s[16..20] == Bytes(v.e) && s[20..24] == Bytes(v.f) && s[24..28] == Bytes(v.g) && s[28..32] == Bytes(v.h)
  {
    hide Output, Bytes;
    OutputWord(v, 4);
    OutputWord(v, 5);
    OutputWord(v, 6);
    OutputWord(v, 7);
  }

  lemma OutputIsBytes(v: Hash)
    ensures Output(v) == Bytes(v.a) + Bytes(v.b) + Bytes(v.c) + Bytes(v.d) +
                         (Bytes(v.e) + Bytes(v.f) + Bytes(v.g) + Bytes(v.h))
  {
    hide Output, Bytes;
    FirstBytes(v);
    LastBytes(v);
    EightParts(Output(v));
  }

  lemma DigestBytes()
    ensures Bytes(0xba7816bf) == [0xba, 0x78, 0x16, 0xbf]
    ensures Bytes(0x8f01cfea) == [0x8f, 0x01, 0xcf, 0xea]
    ensures Bytes(0x414140de) == [0x41, 0x41, 0x40, 0xde]
    ensures Bytes(0x5dae2223) == [0x5d, 0xae, 0x22, 0x23]
    ensures Bytes(0xb00361a3) == [0xb0, 0x03, 0x61, 0xa3]
    ensures Bytes(0x96177a9c) == [0x96, 0x17, 0x7a, 0x9c]
    ensures Bytes(0xb410ff61) == [0xb4, 0x10, 0xff, 0x61]
    ensures Bytes(0xf20015ad) == [0xf2, 0x00, 0x15, 0xad]
  {
  }

  // "abc" gives ba7816bf 8f01cfea 414140de 5dae2223 b00361a3 96177a9c b410ff61 f20015ad.
  lemma AbcDigest()
    ensures Digest([0x61, 0x62, 0x63]) ==
            [0xba, 0x78, 0x16, 0xbf, 0x8f, 0x01, 0xcf, 0xea] +
            [0x41, 0x41, 0x40, 0xde, 0x5d, 0xae, 0x22, 0x23] +
            [0xb0, 0x03, 0x61, 0xa3, 0x96, 0x17, 0x7a, 0x9c] +
            [0xb4, 0x10, 0xff, 0x61, 0xf2, 0x00, 0x15, 0xad]
  {
    hide Digest, HashBlocks, Compress, Bytes, Output, Padded, Abc;
    AbcPadded();
    AbcHashed();
    AbcCompressed();
    OutputIsBytes(Compress(INITIAL, Abc()));
    DigestBytes();
    DigestIs([0x61, 0x62, 0x63]);
  }

  lemma DigestIs(m: seq<Byte>)
    ensures Digest(m) == Output(HashBlocks(Padded(m), |Padded(m)| / 64))
  {
  }
}
