/** The digest of the message "abc", worked out as the examples of FIPS 180 do: the message schedule,
    then the working variables round by round. */
module KnownDigest {
  import opened Prelude
  import opened HexText
  import opened HashChain
  import opened Sha256

  /** The one block that "abc" is padded to. */
  function Block(): (p: Bytes)
    ensures |p| >= 64
  {
    Padded(Ascii("abc"))
  }

  predicate IsBlock(p: Bytes) {
    && |p| == 64 && p[0] == 97 && p[1] == 98 && p[2] == 99 && p[3] == 0x80
    && (forall i :: 4 <= i < 63 ==> p[i] == 0)
    && p[63] == 24
  }

  lemma BlockIs()
    ensures IsBlock(Block())
  {
    assert ZeroCount(3) == 52;
    assert Zeros(52) + Zeros(7) == Zeros(59);
    assert BigEndian(24, 8) == Zeros(7) + [24];
    assert Block() == [97, 98, 99, 0x80] + Zeros(59) + [24];
  }

  // ----- The message schedule -----

  function S(p: Bytes, t: nat): word
    requires 64 <= |p| && t < 64
  {
    W(p, 0, t)
  }

  lemma WordsFrom0(p: Bytes)
    requires IsBlock(p)
    ensures S(p, 0) == 0x61626380 && S(p, 1) == 0x00000000 && S(p, 2) == 0x00000000 && S(p, 3) == 0x00000000
    ensures S(p, 4) == 0x00000000 && S(p, 5) == 0x00000000 && S(p, 6) == 0x00000000 && S(p, 7) == 0x00000000
    ensures S(p, 8) == 0x00000000 && S(p, 9) == 0x00000000 && S(p, 10) == 0x00000000 && S(p, 11) == 0x00000000
    ensures S(p, 12) == 0x00000000 && S(p, 13) == 0x00000000 && S(p, 14) == 0x00000000 && S(p, 15) == 0x00000018
  {
    hide W;
    forall t | 0 <= t < 16 ensures S(p, t) == if t == 0 then 0x61626380 else if t == 15 then 24 else 0 {
      First(p, t);
    }
  }

  lemma First(p: Bytes, t: nat)
    requires IsBlock(p) && t < 16
    ensures S(p, t) == if t == 0 then 0x61626380 else if t == 15 then 24 else 0
  {
    hide W, Word;
    FirstWords(p, 0, t);
    FirstWord();
    MiddleWord();
    LastWord();
  }

  lemma FirstWord()
    ensures Word(97, 98, 99, 128) == 0x61626380
  {
    assert 97 * 0x100_0000 + 98 * 0x1_0000 + 99 * 0x100 + 128 == 0x61626380;
  }

  lemma MiddleWord()
    ensures Word(0, 0, 0, 0) == 0
  {
  }

  lemma LastWord()
    ensures Word(0, 0, 0, 24) == 24
  {
  }

  lemma WordsFrom16(p: Bytes)
    requires IsBlock(p)
    ensures S(p, 16) == 0x61626380 && S(p, 17) == 0x000f0000 && S(p, 18) == 0x7da86405 && S(p, 19) == 0x600003c6
    ensures S(p, 20) == 0x3e9d7b78 && S(p, 21) == 0x0183fc00 && S(p, 22) == 0x12dcbfdb && S(p, 23) == 0xe2e2c38e
    ensures S(p, 24) == 0xc8215c1a && S(p, 25) == 0xb73679a2 && S(p, 26) == 0xe5bc3909 && S(p, 27) == 0x32663c5b
    ensures S(p, 28) == 0x9d209d67 && S(p, 29) == 0xec8726cb && S(p, 30) == 0x702138a4 && S(p, 31) == 0xd3b7973b
  {
    hide W;
    WordsFrom0(p);
    Later(p, 16); Later(p, 17); Later(p, 18); Later(p, 19);
    Later(p, 20); Later(p, 21); Later(p, 22); Later(p, 23);
    Later(p, 24); Later(p, 25); Later(p, 26); Later(p, 27);
    Later(p, 28); Later(p, 29); Later(p, 30); Later(p, 31);
  }

  lemma WordsFrom32(p: Bytes)
    requires IsBlock(p)
    ensures S(p, 32) == 0x93f5997f && S(p, 33) == 0x3b68ba73 && S(p, 34) == 0xaff4ffc1 && S(p, 35) == 0xf10a5c62
    ensures S(p, 36) == 0x0a8b3996 && S(p, 37) == 0x72af830a && S(p, 38) == 0x9409e33e && S(p, 39) == 0x24641522
    ensures S(p, 40) == 0x9f47bf94 && S(p, 41) == 0xf0a64f5a && S(p, 42) == 0x3e246a79 && S(p, 43) == 0x27333ba3
    ensures S(p, 44) == 0x0c4763f2 && S(p, 45) == 0x840abf27 && S(p, 46) == 0x7a290d5d && S(p, 47) == 0x065c43da
  {
    hide W;
    WordsFrom16(p);
    Later(p, 32); Later(p, 33); Later(p, 34); Later(p, 35);
    Later(p, 36); Later(p, 37); Later(p, 38); Later(p, 39);
    Later(p, 40); Later(p, 41); Later(p, 42); Later(p, 43);
    Later(p, 44); Later(p, 45); Later(p, 46); Later(p, 47);
  }

  lemma WordsFrom48(p: Bytes)
    requires IsBlock(p)
    ensures S(p, 48) == 0xfb3e89cb && S(p, 49) == 0xcc7617db && S(p, 50) == 0xb9e66c34 && S(p, 51) == 0xa9993667
    ensures S(p, 52) == 0x84badedd && S(p, 53) == 0xc21462bc && S(p, 54) == 0x1487472c && S(p, 55) == 0xb20f7a99
    ensures S(p, 56) == 0xef57b9cd && S(p, 57) == 0xebe6b238 && S(p, 58) == 0x9fe3095e && S(p, 59) == 0x78bc8d4b
    ensures S(p, 60) == 0xa43fcf15 && S(p, 61) == 0x668b2ff8 && S(p, 62) == 0xeeaba2cc && S(p, 63) == 0x12b1edeb
  {
    hide W;
    WordsFrom32(p);
    Later(p, 48); Later(p, 49); Later(p, 50); Later(p, 51);
    Later(p, 52); Later(p, 53); Later(p, 54); Later(p, 55);
    Later(p, 56); Later(p, 57); Later(p, 58); Later(p, 59);
    Later(p, 60); Later(p, 61); Later(p, 62); Later(p, 63);
  }

  lemma Later(p: Bytes, t: nat)
    requires 64 <= |p| && 16 <= t < 64
    ensures S(p, t) == ScheduleWord(S(p, t - 16), S(p, t - 15), S(p, t - 7), S(p, t - 2))
  {
    hide W, ScheduleWord;
    LaterWords(p, 0, t);
  }

  // ----- The rounds -----

  function R(p: Bytes, t: nat): Words
    requires 64 <= |p| && t <= 64
  {
    Rounds(p, 0, H0, t)
  }

  /** Round `t`, with constant `k` and word `w`, sets the working variables a and e anew and shifts
      the others down. */
  lemma Next(p: Bytes, t: nat, v: Words, k: word, w: word, a: word, e: word) returns (r: Words)
    requires 64 <= |p| && t < 64 && v == R(p, t) && K(t) == k && S(p, t) == w
    requires Add(T1(v.e, v.f, v.g, v.h, k, w), T2(v.a, v.b, v.c)) == a
    requires Add(v.d, T1(v.e, v.f, v.g, v.h, k, w)) == e
    ensures r == Words(a, v.a, v.b, v.c, e, v.e, v.f, v.g) && r == R(p, t + 1)
  {
    hide T1, T2, Add, W, K;
    r := Words(a, v.a, v.b, v.c, e, v.e, v.f, v.g);
  }

  lemma ConstantsFrom0()
    ensures K(0) == 0x428a2f98 && K(1) == 0x71374491 && K(2) == 0xb5c0fbcf && K(3) == 0xe9b5dba5
    ensures K(4) == 0x3956c25b && K(5) == 0x59f111f1 && K(6) == 0x923f82a4 && K(7) == 0xab1c5ed5
  {
  }

  lemma ConstantsFrom8()
    ensures K(8) == 0xd807aa98 && K(9) == 0x12835b01 && K(10) == 0x243185be && K(11) == 0x550c7dc3
    ensures K(12) == 0x72be5d74 && K(13) == 0x80deb1fe && K(14) == 0x9bdc06a7 && K(15) == 0xc19bf174
  {
  }

  lemma ConstantsFrom16()
    ensures K(16) == 0xe49b69c1 && K(17) == 0xefbe4786 && K(18) == 0x0fc19dc6 && K(19) == 0x240ca1cc
    ensures K(20) == 0x2de92c6f && K(21) == 0x4a7484aa && K(22) == 0x5cb0a9dc && K(23) == 0x76f988da
  {
  }

  lemma ConstantsFrom24()
    ensures K(24) == 0x983e5152 && K(25) == 0xa831c66d && K(26) == 0xb00327c8 && K(27) == 0xbf597fc7
    ensures K(28) == 0xc6e00bf3 && K(29) == 0xd5a79147 && K(30) == 0x06ca6351 && K(31) == 0x14292967
  {
  }

  lemma ConstantsFrom32()
    ensures K(32) == 0x27b70a85 && K(33) == 0x2e1b2138 && K(34) == 0x4d2c6dfc && K(35) == 0x53380d13
    ensures K(36) == 0x650a7354 && K(37) == 0x766a0abb && K(38) == 0x81c2c92e && K(39) == 0x92722c85
  {
  }

  lemma ConstantsFrom40()
    ensures K(40) == 0xa2bfe8a1 && K(41) == 0xa81a664b && K(42) == 0xc24b8b70 && K(43) == 0xc76c51a3
    ensures K(44) == 0xd192e819 && K(45) == 0xd6990624 && K(46) == 0xf40e3585 && K(47) == 0x106aa070
  {
  }

  lemma ConstantsFrom48()
    ensures K(48) == 0x19a4c116 && K(49) == 0x1e376c08 && K(50) == 0x2748774c && K(51) == 0x34b0bcb5
    ensures K(52) == 0x391c0cb3 && K(53) == 0x4ed8aa4a && K(54) == 0x5b9cca4f && K(55) == 0x682e6ff3
  {
  }

  lemma ConstantsFrom56()
    ensures K(56) == 0x748f82ee && K(57) == 0x78a5636f && K(58) == 0x84c87814 && K(59) == 0x8cc70208
    ensures K(60) == 0x90befffa && K(61) == 0xa4506ceb && K(62) == 0xbef9a3f7 && K(63) == 0xc67178f2
  {
  }

  lemma RoundsTo8(p: Bytes)
    requires IsBlock(p)
    ensures R(p, 8) == Words(0x85a07b5f, 0xe5030380, 0x2b4209f5, 0x04409a6a,
                          0x0c657a79, 0x9b27a401, 0x714260ad, 0x43ada245)
  {
    hide Rounds, W, K;
    ConstantsFrom0();
    WordsFrom0(p);
    NoRounds(p);
    var v := H0;
    v := Next(p, 0, v, 0x428a2f98, 0x61626380, 0x5d6aebcd, 0xfa2a4622);
    v := Next(p, 1, v, 0x71374491, 0x00000000, 0x5a6ad9ad, 0x78ce7989);
    v := Next(p, 2, v, 0xb5c0fbcf, 0x00000000, 0xc8c347a7, 0xf92939eb);
    v := Next(p, 3, v, 0xe9b5dba5, 0x00000000, 0xd550f666, 0x24e00850);
    v := Next(p, 4, v, 0x3956c25b, 0x00000000, 0x04409a6a, 0x43ada245);
    v := Next(p, 5, v, 0x59f111f1, 0x00000000, 0x2b4209f5, 0x714260ad);
    v := Next(p, 6, v, 0x923f82a4, 0x00000000, 0xe5030380, 0x9b27a401);
    v := Next(p, 7, v, 0xab1c5ed5, 0x00000000, 0x85a07b5f, 0x0c657a79);
  }

  lemma RoundsTo16(p: Bytes)
    requires IsBlock(p)
    ensures R(p, 16) == Words(0xb0fa238e, 0xc0645fde, 0xd932eb16, 0x87912990,
                           0x07590dcd, 0x0b92f20c, 0x745a48de, 0x1e578218)
  {
    hide Rounds, W, K;
    ConstantsFrom8();
    WordsFrom0(p);
    RoundsTo8(p);
    var v := Words(0x85a07b5f, 0xe5030380, 0x2b4209f5, 0x04409a6a, 0x0c657a79, 0x9b27a401, 0x714260ad, 0x43ada245);
    v := Next(p, 8, v, 0xd807aa98, 0x00000000, 0x8e04ecb9, 0x32ca2d8c);
    v := Next(p, 9, v, 0x12835b01, 0x00000000, 0x8c87346b, 0x1cc92596);
    v := Next(p, 10, v, 0x243185be, 0x00000000, 0x4798a3f4, 0x436b23e8);
    v := Next(p, 11, v, 0x550c7dc3, 0x00000000, 0xf71fc5a9, 0x816fd6e9);
    v := Next(p, 12, v, 0x72be5d74, 0x00000000, 0x87912990, 0x1e578218);
    v := Next(p, 13, v, 0x80deb1fe, 0x00000000, 0xd932eb16, 0x745a48de);
    v := Next(p, 14, v, 0x9bdc06a7, 0x00000000, 0xc0645fde, 0x0b92f20c);
    v := Next(p, 15, v, 0xc19bf174, 0x00000018, 0xb0fa238e, 0x07590dcd);
  }

  lemma RoundsTo24(p: Bytes)
    requires IsBlock(p)
    ensures R(p, 24) == Words(0xc5d53d8d, 0xa7a3623f, 0xc2606d6d, 0x9dc68b63,
                           0xaa47c347, 0x49f5114a, 0xe1257970, 0x8ada8930)
  {
    hide Rounds, W, K;
    ConstantsFrom16();
    WordsFrom16(p);
    RoundsTo16(p);
    var v := Words(0xb0fa238e, 0xc0645fde, 0xd932eb16, 0x87912990, 0x07590dcd, 0x0b92f20c, 0x745a48de, 0x1e578218);
    v := Next(p, 16, v, 0xe49b69c1, 0x61626380, 0x21da9a9b, 0x8034229c);
    v := Next(p, 17, v, 0xefbe4786, 0x000f0000, 0xc2fbd9d1, 0x846ee454);
    v := Next(p, 18, v, 0x0fc19dc6, 0x7da86405, 0xfe777bbf, 0xcc899961);
    v := Next(p, 19, v, 0x240ca1cc, 0x600003c6, 0xe1f20c33, 0xb0638179);
    v := Next(p, 20, v, 0x2de92c6f, 0x3e9d7b78, 0x9dc68b63, 0x8ada8930);
    v := Next(p, 21, v, 0x4a7484aa, 0x0183fc00, 0xc2606d6d, 0xe1257970);
    v := Next(p, 22, v, 0x5cb0a9dc, 0x12dcbfdb, 0xa7a3623f, 0x49f5114a);
    v := Next(p, 23, v, 0x76f988da, 0xe2e2c38e, 0xc5d53d8d, 0xaa47c347);
  }

  lemma RoundsTo32(p: Bytes)
    requires IsBlock(p)
    ensures R(p, 32) == Words(0x73b33bf5, 0xea992a22, 0xa0060b30, 0x363482c9,
                           0xba591112, 0x0109ab3a, 0xade79437, 0x6112a3b7)
  {
    hide Rounds, W, K;
    ConstantsFrom24();
    WordsFrom16(p);
    RoundsTo24(p);
    var v := Words(0xc5d53d8d, 0xa7a3623f, 0xc2606d6d, 0x9dc68b63, 0xaa47c347, 0x49f5114a, 0xe1257970, 0x8ada8930);
    v := Next(p, 24, v, 0x983e5152, 0xc8215c1a, 0x1c2c2838, 0x2823ef91);
    v := Next(p, 25, v, 0xa831c66d, 0xb73679a2, 0xcde8037d, 0x14383d8e);
    v := Next(p, 26, v, 0xb00327c8, 0xe5bc3909, 0xb62ec4bc, 0xc74c6516);
    v := Next(p, 27, v, 0xbf597fc7, 0x32663c5b, 0x77d37528, 0xedffbff8);
    v := Next(p, 28, v, 0xc6e00bf3, 0x9d209d67, 0x363482c9, 0x6112a3b7);
    v := Next(p, 29, v, 0xd5a79147, 0xec8726cb, 0xa0060b30, 0xade79437);
    v := Next(p, 30, v, 0x06ca6351, 0x702138a4, 0xea992a22, 0x0109ab3a);
    v := Next(p, 31, v, 0x14292967, 0xd3b7973b, 0x73b33bf5, 0xba591112);
  }

  lemma RoundsTo40(p: Bytes)
    requires IsBlock(p)
    ensures R(p, 40) == Words(0x79ea687a, 0x6dc57a8a, 0x34df1604, 0x41a65cb1,
                           0x1efbc0a0, 0xf0781bc8, 0xa507a53d, 0x0772a26b)
  {
    hide Rounds, W, K;
    ConstantsFrom32();
    WordsFrom32(p);
    RoundsTo32(p);
    var v := Words(0x73b33bf5, 0xea992a22, 0xa0060b30, 0x363482c9, 0xba591112, 0x0109ab3a, 0xade79437, 0x6112a3b7);
    v := Next(p, 32, v, 0x27b70a85, 0x93f5997f, 0x98e12507, 0x9cd9f5f6);
    v := Next(p, 33, v, 0x2e1b2138, 0x3b68ba73, 0xfe604df5, 0x59249dd3);
    v := Next(p, 34, v, 0x4d2c6dfc, 0xaff4ffc1, 0xa9a7738c, 0x085f3833);
    v := Next(p, 35, v, 0x53380d13, 0xf10a5c62, 0x65a0cfe4, 0xf4b002d6);
    v := Next(p, 36, v, 0x650a7354, 0x0a8b3996, 0x41a65cb1, 0x0772a26b);
    v := Next(p, 37, v, 0x766a0abb, 0x72af830a, 0x34df1604, 0xa507a53d);
    v := Next(p, 38, v, 0x81c2c92e, 0x9409e33e, 0x6dc57a8a, 0xf0781bc8);
    v := Next(p, 39, v, 0x92722c85, 0x24641522, 0x79ea687a, 0x1efbc0a0);
  }

  lemma RoundsTo48(p: Bytes)
    requires IsBlock(p)
    ensures R(p, 48) == Words(0x4172328d, 0xa14c14b0, 0x72ab4b91, 0x26628815,
                           0xfecf0bc6, 0xd57b94a9, 0xb7755da1, 0xa80f11f0)
  {
    hide Rounds, W, K;
    ConstantsFrom40();
    WordsFrom32(p);
    RoundsTo40(p);
    var v := Words(0x79ea687a, 0x6dc57a8a, 0x34df1604, 0x41a65cb1, 0x1efbc0a0, 0xf0781bc8, 0xa507a53d, 0x0772a26b);
    v := Next(p, 40, v, 0xa2bfe8a1, 0x9f47bf94, 0xd6670766, 0x26352d63);
    v := Next(p, 41, v, 0xa81a664b, 0xf0a64f5a, 0xdf46652f, 0x838b2711);
    v := Next(p, 42, v, 0xc24b8b70, 0x3e246a79, 0x17aa0dfe, 0xdecd4715);
    v := Next(p, 43, v, 0xc76c51a3, 0x27333ba3, 0x9d4baf93, 0xfda24c2e);
    v := Next(p, 44, v, 0xd192e819, 0x0c4763f2, 0x26628815, 0xa80f11f0);
    v := Next(p, 45, v, 0xd6990624, 0x840abf27, 0x72ab4b91, 0xb7755da1);
    v := Next(p, 46, v, 0xf40e3585, 0x7a290d5d, 0xa14c14b0, 0xd57b94a9);
    v := Next(p, 47, v, 0x106aa070, 0x065c43da, 0x4172328d, 0xfecf0bc6);
  }

  lemma RoundsTo56(p: Bytes)
    requires IsBlock(p)
    ensures R(p, 56) == Words(0x38cc9913, 0x3ec45cdb, 0xf5702fdb, 0x101fd28f,
                           0x54cb266b, 0xe50e1b4f, 0x9f4787c3, 0x529e7d00)
  {
    hide Rounds, W, K;
    ConstantsFrom48();
    WordsFrom48(p);
    RoundsTo48(p);
    var v := Words(0x4172328d, 0xa14c14b0, 0x72ab4b91, 0x26628815, 0xfecf0bc6, 0xd57b94a9, 0xb7755da1, 0xa80f11f0);
    v := Next(p, 48, v, 0x19a4c116, 0xfb3e89cb, 0x05757ceb, 0xbd714038);
    v := Next(p, 49, v, 0x1e376c08, 0xcc7617db, 0xf11bfaa8, 0x6e5c390c);
    v := Next(p, 50, v, 0x2748774c, 0xb9e66c34, 0x7a0508a1, 0x52f1ccf7);
    v := Next(p, 51, v, 0x34b0bcb5, 0xa9993667, 0x886e7a22, 0x49231c1e);
    v := Next(p, 52, v, 0x391c0cb3, 0x84badedd, 0x101fd28f, 0x529e7d00);
    v := Next(p, 53, v, 0x4ed8aa4a, 0xc21462bc, 0xf5702fdb, 0x9f4787c3);
    v := Next(p, 54, v, 0x5b9cca4f, 0x1487472c, 0x3ec45cdb, 0xe50e1b4f);
    v := Next(p, 55, v, 0x682e6ff3, 0xb20f7a99, 0x38cc9913, 0x54cb266b);
  }

  lemma RoundsTo64(p: Bytes)
    requires IsBlock(p)
    ensures R(p, 64) == Words(0x506e3058, 0xd39a2165, 0x04d24d6c, 0xb85e2ce9,
                           0x5ef50f24, 0xfb121210, 0x948d25b6, 0x961f4894)
  {
    hide Rounds, W, K;
    ConstantsFrom56();
    WordsFrom48(p);
    RoundsTo56(p);
    var v := Words(0x38cc9913, 0x3ec45cdb, 0xf5702fdb, 0x101fd28f, 0x54cb266b, 0xe50e1b4f, 0x9f4787c3, 0x529e7d00);
    v := Next(p, 56, v, 0x748f82ee, 0xef57b9cd, 0xfcd1887b, 0x9b5e906c);
    v := Next(p, 57, v, 0x78a5636f, 0xebe6b238, 0xc062d46f, 0x7e44008e);
    v := Next(p, 58, v, 0x84c87814, 0x9fe3095e, 0xffb70472, 0x6d83bfc6);
    v := Next(p, 59, v, 0x8cc70208, 0x78bc8d4b, 0xb6ae8fff, 0xb21bad3d);
    v := Next(p, 60, v, 0x90befffa, 0xa43fcf15, 0xb85e2ce9, 0x961f4894);
    v := Next(p, 61, v, 0xa4506ceb, 0x668b2ff8, 0x04d24d6c, 0x948d25b6);
    v := Next(p, 62, v, 0xbef9a3f7, 0xeeaba2cc, 0xd39a2165, 0xfb121210);
    v := Next(p, 63, v, 0xc67178f2, 0x12b1edeb, 0x506e3058, 0x5ef50f24);
  }

  lemma NoRounds(p: Bytes)
    requires 64 <= |p|
    ensures R(p, 0) == H0
  {
  }

  // ----- The digest -----

  /** The hash value of "abc". */
  const ABC := Words(0xba7816bf, 0x8f01cfea, 0x414140de, 0x5dae2223, 0xb00361a3, 0x96177a9c, 0xb410ff61, 0xf20015ad)

  lemma HashValueOfAbc()
    ensures HashValue(Block(), 1) == ABC
  {
    hide Rounds, Block;
    BlockIs();
    RoundsTo64(Block());
    OneBlock(64);
    FinalSums();
  }

  lemma OneBlock(n: nat)
    requires n == 64
    ensures HashValue(Block(), 1) == AddWords(H0, R(Block(), n))
  {
    hide Rounds, Block, AddWords;
    assert HashValue(Block(), 0) == H0;
  }

  lemma FinalSums()
    ensures AddWords(H0, Words(0x506e3058, 0xd39a2165, 0x04d24d6c,
                     0xb85e2ce9, 0x5ef50f24, 0xfb121210, 0x948d25b6, 0x961f4894)) == ABC
  {
  }

  /** Four bytes, most significant first, and their eight hexadecimal digits. */
  lemma FourBigEndian(n: nat, b0: byte, b1: byte, b2: byte, b3: byte)
    requires n == ((b0 * 256 + b1) * 256 + b2) * 256 + b3
    ensures BigEndian(n, 4) == [b0, b1, b2, b3]
  {
    hide BigEndian;
    Shift(n, 4, (b0 * 256 + b1) * 256 + b2, b3);
    Shift((b0 * 256 + b1) * 256 + b2, 3, b0 * 256 + b1, b2);
    Shift(b0 * 256 + b1, 2, b0, b1);
    Shift(b0, 1, 0, b0);
    NoBytes(0);
  }

  lemma Shift(n: nat, k: nat, rest: nat, b: byte)
    requires k > 0 && n == rest * 256 + b
    ensures BigEndian(n, k) == BigEndian(rest, k - 1) + [b]
  {
    assert n / 256 == rest && n % 256 == b;
  }

  lemma NoBytes(n: nat)
    ensures BigEndian(n, 0) == []
  {
  }

  lemma FourHex(b0: byte, b1: byte, b2: byte, b3: byte)
    ensures Hex([b0, b1, b2, b3]) ==
      [ HexDigit(b0 / 16), HexDigit(b0 % 16), HexDigit(b1 / 16), HexDigit(b1 % 16),
        HexDigit(b2 / 16), HexDigit(b2 % 16), HexDigit(b3 / 16), HexDigit(b3 % 16) ]
  {
    hide Hex, HexDigit;
    assert [b0, b1, b2, b3] == [b0] + ([b1] + ([b2] + ([b3] + [])));
    HexPush(b0, [b1] + ([b2] + ([b3] + [])));
    HexPush(b1, [b2] + ([b3] + []));
    HexPush(b2, [b3] + []);
    HexPush(b3, []);
    NoHex();
  }

  lemma HexPush(b: byte, s: Bytes)
    ensures Hex([b] + s) == [HexDigit(b / 16), HexDigit(b % 16)] + Hex(s)
  {
    hide HexDigit;
    assert ([b] + s)[1..] == s;
  }

  lemma NoHex()
    ensures Hex([]) == []
  {
  }

  /** The hexadecimal text of each word of the hash value. */
  lemma Text0()
    ensures IsAscii("ba7816bf") && Hex(WordBytes(0xba7816bf)) == Ascii("ba7816bf")
  {
    hide BigEndian, Hex;
    FourBigEndian(0xba7816bf, 0xba, 0x78, 0x16, 0xbf);
    FourHex(0xba, 0x78, 0x16, 0xbf);
  }

  lemma Text1()
    ensures IsAscii("8f01cfea") && Hex(WordBytes(0x8f01cfea)) == Ascii("8f01cfea")
  {
    hide BigEndian, Hex;
    FourBigEndian(0x8f01cfea, 0x8f, 0x01, 0xcf, 0xea);
    FourHex(0x8f, 0x01, 0xcf, 0xea);
  }

  lemma Text2()
    ensures IsAscii("414140de") && Hex(WordBytes(0x414140de)) == Ascii("414140de")
  {
    hide BigEndian, Hex;
    FourBigEndian(0x414140de, 0x41, 0x41, 0x40, 0xde);
    FourHex(0x41, 0x41, 0x40, 0xde);
  }

  lemma Text3()
    ensures IsAscii("5dae2223") && Hex(WordBytes(0x5dae2223)) == Ascii("5dae2223")
  {
    hide BigEndian, Hex;
    FourBigEndian(0x5dae2223, 0x5d, 0xae, 0x22, 0x23);
    FourHex(0x5d, 0xae, 0x22, 0x23);
  }

  lemma Text4()
    ensures IsAscii("b00361a3") && Hex(WordBytes(0xb00361a3)) == Ascii("b00361a3")
  {
    hide BigEndian, Hex;
    FourBigEndian(0xb00361a3, 0xb0, 0x03, 0x61, 0xa3);
    FourHex(0xb0, 0x03, 0x61, 0xa3);
  }

  lemma Text5()
    ensures IsAscii("96177a9c") && Hex(WordBytes(0x96177a9c)) == Ascii("96177a9c")
  {
    hide BigEndian, Hex;
    FourBigEndian(0x96177a9c, 0x96, 0x17, 0x7a, 0x9c);
    FourHex(0x96, 0x17, 0x7a, 0x9c);
  }

  lemma Text6()
    ensures IsAscii("b410ff61") && Hex(WordBytes(0xb410ff61)) == Ascii("b410ff61")
  {
    hide BigEndian, Hex;
    FourBigEndian(0xb410ff61, 0xb4, 0x10, 0xff, 0x61);
    FourHex(0xb4, 0x10, 0xff, 0x61);
  }

  lemma Text7()
    ensures IsAscii("f20015ad") && Hex(WordBytes(0xf20015ad)) == Ascii("f20015ad")
  {
    hide BigEndian, Hex;
    FourBigEndian(0xf20015ad, 0xf2, 0x00, 0x15, 0xad);
    FourHex(0xf2, 0x00, 0x15, 0xad);
  }

  lemma {:induction false} HexConcat(s: Bytes, t: Bytes)
    ensures Hex(s + t) == Hex(s) + Hex(t)
  {
    hide Hex, HexDigit;
    if s == [] {
      assert s + t == t;
      NoHex();
    } else {
      HexConcat(s[1..], t);
      assert s + t == [s[0]] + (s[1..] + t);
      assert [s[0]] + s[1..] == s;
      HexPush(s[0], s[1..] + t);
      HexPush(s[0], s[1..]);
    }
  }

  /** A byte string and its hexadecimal text, one word longer. */
  lemma Extend(b: Bytes, t: string, w: word, u: string)
    requires IsAscii(t) && Hex(b) == Ascii(t) && IsAscii(u) && Hex(WordBytes(w)) == Ascii(u)
    ensures IsAscii(t + u) && Hex(b + WordBytes(w)) == Ascii(t + u)
  {
    hide Hex, WordBytes, Ascii;
    HexConcat(b, WordBytes(w));
    AsciiConcat(t, u);
  }

  lemma HexOfAbc()
    ensures IsAscii(ABC_TEXT) && Hex(DigestOf(ABC)) == Ascii(ABC_TEXT)
  {
    hide Hex, WordBytes, Ascii, IsAscii;
    Text0();
    Text1();
    Text2();
    Text3();
    Text4();
    Text5();
    Text6();
    Text7();
    var b, t := WordBytes(ABC.a), "ba7816bf";
    Extend(b, t, ABC.b, "8f01cfea");
    b, t := b + WordBytes(ABC.b), t + "8f01cfea";
    Extend(b, t, ABC.c, "414140de");
    b, t := b + WordBytes(ABC.c), t + "414140de";
    Extend(b, t, ABC.d, "5dae2223");
    b, t := b + WordBytes(ABC.d), t + "5dae2223";
    Extend(b, t, ABC.e, "b00361a3");
    b, t := b + WordBytes(ABC.e), t + "b00361a3";
    Extend(b, t, ABC.f, "96177a9c");
    b, t := b + WordBytes(ABC.f), t + "96177a9c";
    Extend(b, t, ABC.g, "b410ff61");
    b, t := b + WordBytes(ABC.g), t + "b410ff61";
    Extend(b, t, ABC.h, "f20015ad");
    b, t := b + WordBytes(ABC.h), t + "f20015ad";
    assert t == ABC_TEXT;
  }

  const ABC_TEXT := "ba7816bf" + "8f01cfea" + "414140de" + "5dae2223"
                    + "b00361a3" + "96177a9c" + "b410ff61" + "f20015ad"

  lemma DigestOfAbc()
    ensures Digest(Ascii("abc")) == DigestOf(ABC)
  {
    hide HashValue, Padded, DigestOf, Rounds;
    assert |Block()| == 64 by {
      hide Block;
      BlockIs();
    }
    HashValueOfAbc();
  }

  /** The hash of "abc" is the one the standard gives. */
  lemma HashOfAbc()
    ensures IsAscii("sha256:" + ABC_TEXT)
    ensures CanonicalHash(Ascii("abc")) == Ascii("sha256:" + ABC_TEXT)
  {
    hide Hex, Digest, Ascii, DigestOf;
    DigestOfAbc();
    HexOfAbc();
    AsciiConcat("sha256:", ABC_TEXT);
  }

  // ----- The anchor of the hash chain -----

  /** Appending the eight digits of `m` to those of `n`. */
  lemma HexDigitsPush(n: nat, m: nat, k: nat)
    requires m < 0x1_0000_0000
    ensures HexDigits(n * 0x1_0000_0000 + m, k + 8) == HexDigits(n, k) + HexDigits(m, 8)
  {
    var x := n * 0x1_0000_0000 + m;
    forall i | 0 <= i < k + 8
      ensures HexDigits(x, k + 8)[i] == (HexDigits(n, k) + HexDigits(m, 8))[i]
    {
      DigitSplit(n, m, 8, 0x1_0000_0000, k + 7 - i);
    }
  }

  lemma {:induction false} DigitSplit(n: nat, m: nat, j: nat, power: nat, i: nat)
    requires power == Pow16(j) && m < power
    ensures DigitOf(n * power + m, i) == if i < j then DigitOf(m, i) else DigitOf(n, i - j)
    decreases i
  {
    hide DigitOf;
    if j > 0 {
      var rest := Pow16(j - 1);
      Sixteenfold(n, rest);
      Divided(n * rest, m);
      NextDigit(n * power + m, i);
      NextDigit(m, i);
      if i > 0 {
        DigitSplit(n, m / 16, j - 1, rest, i - 1);
      }
    }
  }

  lemma NextDigit(x: nat, i: nat)
    ensures DigitOf(x, i) == if i == 0 then HexDigit(x % 16) else DigitOf(x / 16, i - 1)
  {
  }

  lemma Sixteenfold(n: nat, rest: nat)
    ensures n * (16 * rest) == 16 * (n * rest)
  {
  }

  lemma Divided(x: nat, m: nat)
    ensures (16 * x + m) / 16 == x + m / 16 && (16 * x + m) % 16 == m % 16
  {
  }

  function Pow16(j: nat): nat { if j == 0 then 1 else 16 * Pow16(j - 1) }

  const GENESIS_TEXT := "e69ba0ea" + "583c19f5" + "b7d6c3d8" + "ddc0e2a2"
                        + "f1e1f8b7" + "e77e5f7f" + "7c1c25b4" + "c1f3a2e5"

  lemma Longer(n: nat, k: nat, t: string, m: nat, u: string) returns (x: nat)
    requires m < 0x1_0000_0000 && IsAscii(t) && IsAscii(u)
    requires HexDigits(n, k) == Ascii(t) && HexDigits(m, 8) == Ascii(u)
    ensures x == n * 0x1_0000_0000 + m && IsAscii(t + u) && HexDigits(x, k + 8) == Ascii(t + u)
  {
    hide HexDigits, Ascii, IsAscii;
    x := n * 0x1_0000_0000 + m;
    HexDigitsPush(n, m, k);
    AsciiConcat(t, u);
  }

  lemma GenesisPart0()
    ensures IsAscii("e69ba0ea") && HexDigits(0xe69ba0ea, 8) == Ascii("e69ba0ea")
  {
    EightDigits(0xe69ba0ea, 0xe6, 0x9b, 0xa0, 0xea);
  }

  lemma GenesisPart1()
    ensures IsAscii("583c19f5") && HexDigits(0x583c19f5, 8) == Ascii("583c19f5")
  {
    EightDigits(0x583c19f5, 0x58, 0x3c, 0x19, 0xf5);
  }

  lemma GenesisPart2()
    ensures IsAscii("b7d6c3d8") && HexDigits(0xb7d6c3d8, 8) == Ascii("b7d6c3d8")
  {
    EightDigits(0xb7d6c3d8, 0xb7, 0xd6, 0xc3, 0xd8);
  }

  lemma GenesisPart3()
    ensures IsAscii("ddc0e2a2") && HexDigits(0xddc0e2a2, 8) == Ascii("ddc0e2a2")
  {
    EightDigits(0xddc0e2a2, 0xdd, 0xc0, 0xe2, 0xa2);
  }

  lemma GenesisPart4()
    ensures IsAscii("f1e1f8b7") && HexDigits(0xf1e1f8b7, 8) == Ascii("f1e1f8b7")
  {
    EightDigits(0xf1e1f8b7, 0xf1, 0xe1, 0xf8, 0xb7);
  }

  lemma GenesisPart5()
    ensures IsAscii("e77e5f7f") && HexDigits(0xe77e5f7f, 8) == Ascii("e77e5f7f")
  {
    EightDigits(0xe77e5f7f, 0xe7, 0x7e, 0x5f, 0x7f);
  }

  lemma GenesisPart6()
    ensures IsAscii("7c1c25b4") && HexDigits(0x7c1c25b4, 8) == Ascii("7c1c25b4")
  {
    EightDigits(0x7c1c25b4, 0x7c, 0x1c, 0x25, 0xb4);
  }

  lemma GenesisPart7()
    ensures IsAscii("c1f3a2e5") && HexDigits(0xc1f3a2e5, 8) == Ascii("c1f3a2e5")
  {
    EightDigits(0xc1f3a2e5, 0xc1, 0xf3, 0xa2, 0xe5);
  }

  /** The anchor, spelled out. */
  lemma GenesisIs()
    ensures IsAscii("sha256:" + GENESIS_TEXT) && Genesis() == Ascii("sha256:" + GENESIS_TEXT)
  {
    hide HexDigits, Ascii, IsAscii;
    GenesisPart0();
    GenesisPart1();
    GenesisPart2();
    GenesisPart3();
    GenesisPart4();
    GenesisPart5();
    GenesisPart6();
    GenesisPart7();
    var n, t := 0xe69ba0ea, "e69ba0ea";
    n := Longer(n, 8, t, 0x583c19f5, "583c19f5");
    t := t + "583c19f5";
    n := Longer(n, 16, t, 0xb7d6c3d8, "b7d6c3d8");
    t := t + "b7d6c3d8";
    n := Longer(n, 24, t, 0xddc0e2a2, "ddc0e2a2");
    t := t + "ddc0e2a2";
    n := Longer(n, 32, t, 0xf1e1f8b7, "f1e1f8b7");
    t := t + "f1e1f8b7";
    n := Longer(n, 40, t, 0xe77e5f7f, "e77e5f7f");
    t := t + "e77e5f7f";
    n := Longer(n, 48, t, 0x7c1c25b4, "7c1c25b4");
    t := t + "7c1c25b4";
    n := Longer(n, 56, t, 0xc1f3a2e5, "c1f3a2e5");
    t := t + "c1f3a2e5";
    assert t == GENESIS_TEXT;
    PrefixIsAscii();
    AsciiConcat("sha256:", t);
  }

  lemma PrefixIsAscii()
    ensures IsAscii("sha256:")
  {
  }

  lemma EightDigits(n: nat, b0: byte, b1: byte, b2: byte, b3: byte)
    requires n == 0x100_0000 * b0 as int + 0x1_0000 * b1 as int + 0x100 * b2 as int + b3 as int
    ensures HexDigits(n, 8) ==
      [ HexDigit(b0 / 16), HexDigit(b0 % 16), HexDigit(b1 / 16), HexDigit(b1 % 16),
        HexDigit(b2 / 16), HexDigit(b2 % 16), HexDigit(b3 / 16), HexDigit(b3 % 16) ]
  {
    hide HexDigit;
    var x1, x2, x3 := n / 256, n / 0x1_0000, n / 0x100_0000;
    assert x3 == b0 as int && x2 == 0x100 * x3 + b1 as int && x1 == 0x100 * x2 + b2 as int;
    TwoDigits(n, x1, b3, 0);
    TwoDigits(x1, x2, b2, 0);
    TwoDigits(x2, x3, b1, 0);
    TwoDigits(x3, 0, b0, 0);
  }

  lemma TwoDigits(n: nat, rest: nat, b: byte, i: nat)
    requires n == 0x100 * rest + b as int
    ensures DigitOf(n, 0) == HexDigit(b % 16) && DigitOf(n, 1) == HexDigit(b / 16)
    ensures forall k: nat :: DigitOf(n, k + 2) == DigitOf(rest, k)
  {
    hide HexDigit;
    assert n % 16 == b % 16 && n / 16 == 16 * rest + b / 16;
    assert n / 16 % 16 == b / 16 && n / 16 / 16 == rest;
    forall k: nat ensures DigitOf(n, k + 2) == DigitOf(rest, k) {
      assert DigitOf(n, k + 2) == DigitOf(n / 16, k + 1) == DigitOf(n / 16 / 16, k);
    }
  }
}
