/** The example of appendix B.1 of FIPS 180-2, the message "abc": word by word and round by round. */
module ShaExample {
  import opened Octets
  import opened Fips180

  /** The padded message as words. */
  const ABC: seq<word> := [0x61626380, 0x0, 0x0, 0x0, 0x0, 0x0, 0x0, 0x0, 0x0, 0x0, 0x0, 0x0, 0x0, 0x0, 0x0, 0x18]

  /** Word `t` of the message schedule is `w`. */
  predicate Word(t: int, w: word) {
    0 <= t && Schedule(ABC, t) == w
  }

  /** The working variables after `t` rounds are `r`. */
  predicate After(t: int, r: Regs) {
    0 <= t <= 64 && Rounds(Initial(), ABC, t) == r
  }

  lemma FirstWord(t: int)
    requires 0 <= t < 16
    ensures Word(t, ABC[t])
  {
  }

  lemma NextWord(t: int, w2: word, w7: word, w15: word, w16: word)
    requires 16 <= t && Word(t - 2, w2) && Word(t - 7, w7) && Word(t - 15, w15) && Word(t - 16, w16)
    ensures Word(t, Plus(Plus(Plus(SmallSigma1(w2), w7), SmallSigma0(w15)), w16))
  {
  }

  lemma NextRound(t: int, k: word, w: word, r: Regs)
    requires 0 <= t < 64
    ensures After(t, r) && Word(t, w) && K(t) == k ==> After(t + 1, Round(r, k, w))
  {
  }

  lemma NoRound()
    ensures After(0,
      Regs(0x6a09e667, 0xbb67ae85, 0x3c6ef372, 0xa54ff53a, 0x510e527f, 0x9b05688c, 0x1f83d9ab, 0x5be0cd19))
  {
  }

  lemma Words0(b: int)
    requires b == 0
    ensures
      && Word(b, 0x61626380) && Word(b + 1, 0x00000000) && Word(b + 2, 0x00000000) && Word(b + 3, 0x00000000)
      && Word(b + 4, 0x00000000) && Word(b + 5, 0x00000000) && Word(b + 6, 0x00000000) && Word(b + 7, 0x00000000)
      && Word(b + 8, 0x00000000) && Word(b + 9, 0x00000000) && Word(b + 10, 0x00000000) && Word(b + 11, 0x00000000)
      && Word(b + 12, 0x00000000) && Word(b + 13, 0x00000000) && Word(b + 14, 0x00000000) && Word(b + 15, 0x00000018)
  {
    hide Word;
    FirstWord(b);
    FirstWord(b + 1);
    FirstWord(b + 2);
    FirstWord(b + 3);
    FirstWord(b + 4);
    FirstWord(b + 5);
    FirstWord(b + 6);
    FirstWord(b + 7);
    FirstWord(b + 8);
    FirstWord(b + 9);
    FirstWord(b + 10);
    FirstWord(b + 11);
    FirstWord(b + 12);
    FirstWord(b + 13);
    FirstWord(b + 14);
    FirstWord(b + 15);
  }

  lemma Words16(b: int)
    requires b == 16
    ensures
      && Word(b, 0x61626380) && Word(b + 1, 0x000f0000) && Word(b + 2, 0x7da86405) && Word(b + 3, 0x600003c6)
      && Word(b + 4, 0x3e9d7b78) && Word(b + 5, 0x0183fc00) && Word(b + 6, 0x12dcbfdb) && Word(b + 7, 0xe2e2c38e)
  {
    hide Word;
    Words0(0);
    NextWord(b, 0x00000000, 0x00000000, 0x00000000, 0x61626380);
    NextWord(b + 1, 0x00000018, 0x00000000, 0x00000000, 0x00000000);
    NextWord(b + 2, 0x61626380, 0x00000000, 0x00000000, 0x00000000);
    NextWord(b + 3, 0x000f0000, 0x00000000, 0x00000000, 0x00000000);
    NextWord(b + 4, 0x7da86405, 0x00000000, 0x00000000, 0x00000000);
    NextWord(b + 5, 0x600003c6, 0x00000000, 0x00000000, 0x00000000);
    NextWord(b + 6, 0x3e9d7b78, 0x00000018, 0x00000000, 0x00000000);
    NextWord(b + 7, 0x0183fc00, 0x61626380, 0x00000000, 0x00000000);
  }

  lemma Words24(b: int)
    requires b == 24
    ensures
      && Word(b, 0xc8215c1a) && Word(b + 1, 0xb73679a2) && Word(b + 2, 0xe5bc3909) && Word(b + 3, 0x32663c5b)
      && Word(b + 4, 0x9d209d67) && Word(b + 5, 0xec8726cb) && Word(b + 6, 0x702138a4) && Word(b + 7, 0xd3b7973b)
  {
    hide Word;
    Words0(0);
    Words16(16);
    NextWord(b, 0x12dcbfdb, 0x000f0000, 0x00000000, 0x00000000);
    NextWord(b + 1, 0xe2e2c38e, 0x7da86405, 0x00000000, 0x00000000);
    NextWord(b + 2, 0xc8215c1a, 0x600003c6, 0x00000000, 0x00000000);
    NextWord(b + 3, 0xb73679a2, 0x3e9d7b78, 0x00000000, 0x00000000);
    NextWord(b + 4, 0xe5bc3909, 0x0183fc00, 0x00000000, 0x00000000);
    NextWord(b + 5, 0x32663c5b, 0x12dcbfdb, 0x00000000, 0x00000000);
    NextWord(b + 6, 0x9d209d67, 0xe2e2c38e, 0x00000018, 0x00000000);
    NextWord(b + 7, 0xec8726cb, 0xc8215c1a, 0x61626380, 0x00000018);
  }

  lemma Words32(b: int)
    requires b == 32
    ensures
      && Word(b, 0x93f5997f) && Word(b + 1, 0x3b68ba73) && Word(b + 2, 0xaff4ffc1) && Word(b + 3, 0xf10a5c62)
      && Word(b + 4, 0x0a8b3996) && Word(b + 5, 0x72af830a) && Word(b + 6, 0x9409e33e) && Word(b + 7, 0x24641522)
  {
    hide Word;
    Words16(16);
    Words24(24);
    NextWord(b, 0x702138a4, 0xb73679a2, 0x000f0000, 0x61626380);
    NextWord(b + 1, 0xd3b7973b, 0xe5bc3909, 0x7da86405, 0x000f0000);
    NextWord(b + 2, 0x93f5997f, 0x32663c5b, 0x600003c6, 0x7da86405);
    NextWord(b + 3, 0x3b68ba73, 0x9d209d67, 0x3e9d7b78, 0x600003c6);
    NextWord(b + 4, 0xaff4ffc1, 0xec8726cb, 0x0183fc00, 0x3e9d7b78);
    NextWord(b + 5, 0xf10a5c62, 0x702138a4, 0x12dcbfdb, 0x0183fc00);
    NextWord(b + 6, 0x0a8b3996, 0xd3b7973b, 0xe2e2c38e, 0x12dcbfdb);
    NextWord(b + 7, 0x72af830a, 0x93f5997f, 0xc8215c1a, 0xe2e2c38e);
  }

  lemma Words40(b: int)
    requires b == 40
    ensures
      && Word(b, 0x9f47bf94) && Word(b + 1, 0xf0a64f5a) && Word(b + 2, 0x3e246a79) && Word(b + 3, 0x27333ba3)
      && Word(b + 4, 0x0c4763f2) && Word(b + 5, 0x840abf27) && Word(b + 6, 0x7a290d5d) && Word(b + 7, 0x065c43da)
  {
    hide Word;
    Words24(24);
    Words32(32);
    NextWord(b, 0x9409e33e, 0x3b68ba73, 0xb73679a2, 0xc8215c1a);
    NextWord(b + 1, 0x24641522, 0xaff4ffc1, 0xe5bc3909, 0xb73679a2);
    NextWord(b + 2, 0x9f47bf94, 0xf10a5c62, 0x32663c5b, 0xe5bc3909);
    NextWord(b + 3, 0xf0a64f5a, 0x0a8b3996, 0x9d209d67, 0x32663c5b);
    NextWord(b + 4, 0x3e246a79, 0x72af830a, 0xec8726cb, 0x9d209d67);
    NextWord(b + 5, 0x27333ba3, 0x9409e33e, 0x702138a4, 0xec8726cb);
    NextWord(b + 6, 0x0c4763f2, 0x24641522, 0xd3b7973b, 0x702138a4);
    NextWord(b + 7, 0x840abf27, 0x9f47bf94, 0x93f5997f, 0xd3b7973b);
  }

  lemma Words48(b: int)
    requires b == 48
    ensures
      && Word(b, 0xfb3e89cb) && Word(b + 1, 0xcc7617db) && Word(b + 2, 0xb9e66c34) && Word(b + 3, 0xa9993667)
      && Word(b + 4, 0x84badedd) && Word(b + 5, 0xc21462bc) && Word(b + 6, 0x1487472c) && Word(b + 7, 0xb20f7a99)
  {
    hide Word;
    Words32(32);
    Words40(40);
    NextWord(b, 0x7a290d5d, 0xf0a64f5a, 0x3b68ba73, 0x93f5997f);
    NextWord(b + 1, 0x065c43da, 0x3e246a79, 0xaff4ffc1, 0x3b68ba73);
    NextWord(b + 2, 0xfb3e89cb, 0x27333ba3, 0xf10a5c62, 0xaff4ffc1);
    NextWord(b + 3, 0xcc7617db, 0x0c4763f2, 0x0a8b3996, 0xf10a5c62);
    NextWord(b + 4, 0xb9e66c34, 0x840abf27, 0x72af830a, 0x0a8b3996);
    NextWord(b + 5, 0xa9993667, 0x7a290d5d, 0x9409e33e, 0x72af830a);
    NextWord(b + 6, 0x84badedd, 0x065c43da, 0x24641522, 0x9409e33e);
    NextWord(b + 7, 0xc21462bc, 0xfb3e89cb, 0x9f47bf94, 0x24641522);
  }

  lemma Words56(b: int)
    requires b == 56
    ensures
      && Word(b, 0xef57b9cd) && Word(b + 1, 0xebe6b238) && Word(b + 2, 0x9fe3095e) && Word(b + 3, 0x78bc8d4b)
      && Word(b + 4, 0xa43fcf15) && Word(b + 5, 0x668b2ff8) && Word(b + 6, 0xeeaba2cc) && Word(b + 7, 0x12b1edeb)
  {
    hide Word;
    Words40(40);
    Words48(48);
    NextWord(b, 0x1487472c, 0xcc7617db, 0xf0a64f5a, 0x9f47bf94);
    NextWord(b + 1, 0xb20f7a99, 0xb9e66c34, 0x3e246a79, 0xf0a64f5a);
    NextWord(b + 2, 0xef57b9cd, 0xa9993667, 0x27333ba3, 0x3e246a79);
    NextWord(b + 3, 0xebe6b238, 0x84badedd, 0x0c4763f2, 0x27333ba3);
    NextWord(b + 4, 0x9fe3095e, 0xc21462bc, 0x840abf27, 0x0c4763f2);
    NextWord(b + 5, 0x78bc8d4b, 0x1487472c, 0x7a290d5d, 0x840abf27);
    NextWord(b + 6, 0xa43fcf15, 0xb20f7a99, 0x065c43da, 0x7a290d5d);
    NextWord(b + 7, 0x668b2ff8, 0xef57b9cd, 0xfb3e89cb, 0x065c43da);
  }

  lemma Rounds0(b: int)
    requires b == 0
    ensures After(b + 4,
      Regs(0xd550f666, 0xc8c347a7, 0x5a6ad9ad, 0x5d6aebcd, 0x24e00850, 0xf92939eb, 0x78ce7989, 0xfa2a4622))
  {
    hide After, Word;
    NoRound();
    Words0(0);
    NextRound(b, 0x428a2f98, 0x61626380,
      Regs(0x6a09e667, 0xbb67ae85, 0x3c6ef372, 0xa54ff53a, 0x510e527f, 0x9b05688c, 0x1f83d9ab, 0x5be0cd19));
    NextRound(b + 1, 0x71374491, 0x00000000,
      Regs(0x5d6aebcd, 0x6a09e667, 0xbb67ae85, 0x3c6ef372, 0xfa2a4622, 0x510e527f, 0x9b05688c, 0x1f83d9ab));
    NextRound(b + 2, 0xb5c0fbcf, 0x00000000,
      Regs(0x5a6ad9ad, 0x5d6aebcd, 0x6a09e667, 0xbb67ae85, 0x78ce7989, 0xfa2a4622, 0x510e527f, 0x9b05688c));
    NextRound(b + 3, 0xe9b5dba5, 0x00000000,
      Regs(0xc8c347a7, 0x5a6ad9ad, 0x5d6aebcd, 0x6a09e667, 0xf92939eb, 0x78ce7989, 0xfa2a4622, 0x510e527f));
  }

  lemma Rounds4(b: int)
    requires b == 4
    ensures After(b + 4,
      Regs(0x85a07b5f, 0xe5030380, 0x2b4209f5, 0x04409a6a, 0x0c657a79, 0x9b27a401, 0x714260ad, 0x43ada245))
  {
    hide After, Word;
    Rounds0(0);
    Words0(0);
    NextRound(b, 0x3956c25b, 0x00000000,
      Regs(0xd550f666, 0xc8c347a7, 0x5a6ad9ad, 0x5d6aebcd, 0x24e00850, 0xf92939eb, 0x78ce7989, 0xfa2a4622));
    NextRound(b + 1, 0x59f111f1, 0x00000000,
      Regs(0x04409a6a, 0xd550f666, 0xc8c347a7, 0x5a6ad9ad, 0x43ada245, 0x24e00850, 0xf92939eb, 0x78ce7989));
    NextRound(b + 2, 0x923f82a4, 0x00000000,
      Regs(0x2b4209f5, 0x04409a6a, 0xd550f666, 0xc8c347a7, 0x714260ad, 0x43ada245, 0x24e00850, 0xf92939eb));
    NextRound(b + 3, 0xab1c5ed5, 0x00000000,
      Regs(0xe5030380, 0x2b4209f5, 0x04409a6a, 0xd550f666, 0x9b27a401, 0x714260ad, 0x43ada245, 0x24e00850));
  }

  lemma Rounds8(b: int)
    requires b == 8
    ensures After(b + 4,
      Regs(0xf71fc5a9, 0x4798a3f4, 0x8c87346b, 0x8e04ecb9, 0x816fd6e9, 0x436b23e8, 0x1cc92596, 0x32ca2d8c))
  {
    hide After, Word;
    Rounds4(4);
    Words0(0);
    NextRound(b, 0xd807aa98, 0x00000000,
      Regs(0x85a07b5f, 0xe5030380, 0x2b4209f5, 0x04409a6a, 0x0c657a79, 0x9b27a401, 0x714260ad, 0x43ada245));
    NextRound(b + 1, 0x12835b01, 0x00000000,
      Regs(0x8e04ecb9, 0x85a07b5f, 0xe5030380, 0x2b4209f5, 0x32ca2d8c, 0x0c657a79, 0x9b27a401, 0x714260ad));
    NextRound(b + 2, 0x243185be, 0x00000000,
      Regs(0x8c87346b, 0x8e04ecb9, 0x85a07b5f, 0xe5030380, 0x1cc92596, 0x32ca2d8c, 0x0c657a79, 0x9b27a401));
    NextRound(b + 3, 0x550c7dc3, 0x00000000,
      Regs(0x4798a3f4, 0x8c87346b, 0x8e04ecb9, 0x85a07b5f, 0x436b23e8, 0x1cc92596, 0x32ca2d8c, 0x0c657a79));
  }

  lemma Rounds12(b: int)
    requires b == 12
    ensures After(b + 4,
      Regs(0xb0fa238e, 0xc0645fde, 0xd932eb16, 0x87912990, 0x07590dcd, 0x0b92f20c, 0x745a48de, 0x1e578218))
  {
    hide After, Word;
    Rounds8(8);
    Words0(0);
    NextRound(b, 0x72be5d74, 0x00000000,
      Regs(0xf71fc5a9, 0x4798a3f4, 0x8c87346b, 0x8e04ecb9, 0x816fd6e9, 0x436b23e8, 0x1cc92596, 0x32ca2d8c));
    NextRound(b + 1, 0x80deb1fe, 0x00000000,
      Regs(0x87912990, 0xf71fc5a9, 0x4798a3f4, 0x8c87346b, 0x1e578218, 0x816fd6e9, 0x436b23e8, 0x1cc92596));
    NextRound(b + 2, 0x9bdc06a7, 0x00000000,
      Regs(0xd932eb16, 0x87912990, 0xf71fc5a9, 0x4798a3f4, 0x745a48de, 0x1e578218, 0x816fd6e9, 0x436b23e8));
    NextRound(b + 3, 0xc19bf174, 0x00000018,
      Regs(0xc0645fde, 0xd932eb16, 0x87912990, 0xf71fc5a9, 0x0b92f20c, 0x745a48de, 0x1e578218, 0x816fd6e9));
  }

  lemma Rounds16(b: int)
    requires b == 16
    ensures After(b + 4,
      Regs(0xe1f20c33, 0xfe777bbf, 0xc2fbd9d1, 0x21da9a9b, 0xb0638179, 0xcc899961, 0x846ee454, 0x8034229c))
  {
    hide After, Word;
    Rounds12(12);
    Words16(16);
    NextRound(b, 0xe49b69c1, 0x61626380,
      Regs(0xb0fa238e, 0xc0645fde, 0xd932eb16, 0x87912990, 0x07590dcd, 0x0b92f20c, 0x745a48de, 0x1e578218));
    NextRound(b + 1, 0xefbe4786, 0x000f0000,
      Regs(0x21da9a9b, 0xb0fa238e, 0xc0645fde, 0xd932eb16, 0x8034229c, 0x07590dcd, 0x0b92f20c, 0x745a48de));
    NextRound(b + 2, 0x0fc19dc6, 0x7da86405,
      Regs(0xc2fbd9d1, 0x21da9a9b, 0xb0fa238e, 0xc0645fde, 0x846ee454, 0x8034229c, 0x07590dcd, 0x0b92f20c));
    NextRound(b + 3, 0x240ca1cc, 0x600003c6,
      Regs(0xfe777bbf, 0xc2fbd9d1, 0x21da9a9b, 0xb0fa238e, 0xcc899961, 0x846ee454, 0x8034229c, 0x07590dcd));
  }

  lemma Rounds20(b: int)
    requires b == 20
    ensures After(b + 4,
      Regs(0xc5d53d8d, 0xa7a3623f, 0xc2606d6d, 0x9dc68b63, 0xaa47c347, 0x49f5114a, 0xe1257970, 0x8ada8930))
  {
    hide After, Word;
    Rounds16(16);
    Words16(16);
    NextRound(b, 0x2de92c6f, 0x3e9d7b78,
      Regs(0xe1f20c33, 0xfe777bbf, 0xc2fbd9d1, 0x21da9a9b, 0xb0638179, 0xcc899961, 0x846ee454, 0x8034229c));
    NextRound(b + 1, 0x4a7484aa, 0x0183fc00,
      Regs(0x9dc68b63, 0xe1f20c33, 0xfe777bbf, 0xc2fbd9d1, 0x8ada8930, 0xb0638179, 0xcc899961, 0x846ee454));
    NextRound(b + 2, 0x5cb0a9dc, 0x12dcbfdb,
      Regs(0xc2606d6d, 0x9dc68b63, 0xe1f20c33, 0xfe777bbf, 0xe1257970, 0x8ada8930, 0xb0638179, 0xcc899961));
    NextRound(b + 3, 0x76f988da, 0xe2e2c38e,
      Regs(0xa7a3623f, 0xc2606d6d, 0x9dc68b63, 0xe1f20c33, 0x49f5114a, 0xe1257970, 0x8ada8930, 0xb0638179));
  }

  lemma Rounds24(b: int)
    requires b == 24
    ensures After(b + 4,
      Regs(0x77d37528, 0xb62ec4bc, 0xcde8037d, 0x1c2c2838, 0xedffbff8, 0xc74c6516, 0x14383d8e, 0x2823ef91))
  {
    hide After, Word;
    Rounds20(20);
    Words24(24);
    NextRound(b, 0x983e5152, 0xc8215c1a,
      Regs(0xc5d53d8d, 0xa7a3623f, 0xc2606d6d, 0x9dc68b63, 0xaa47c347, 0x49f5114a, 0xe1257970, 0x8ada8930));
    NextRound(b + 1, 0xa831c66d, 0xb73679a2,
      Regs(0x1c2c2838, 0xc5d53d8d, 0xa7a3623f, 0xc2606d6d, 0x2823ef91, 0xaa47c347, 0x49f5114a, 0xe1257970));
    NextRound(b + 2, 0xb00327c8, 0xe5bc3909,
      Regs(0xcde8037d, 0x1c2c2838, 0xc5d53d8d, 0xa7a3623f, 0x14383d8e, 0x2823ef91, 0xaa47c347, 0x49f5114a));
    NextRound(b + 3, 0xbf597fc7, 0x32663c5b,
      Regs(0xb62ec4bc, 0xcde8037d, 0x1c2c2838, 0xc5d53d8d, 0xc74c6516, 0x14383d8e, 0x2823ef91, 0xaa47c347));
  }

  lemma Rounds28(b: int)
    requires b == 28
    ensures After(b + 4,
      Regs(0x73b33bf5, 0xea992a22, 0xa0060b30, 0x363482c9, 0xba591112, 0x0109ab3a, 0xade79437, 0x6112a3b7))
  {
    hide After, Word;
    Rounds24(24);
    Words24(24);
    NextRound(b, 0xc6e00bf3, 0x9d209d67,
      Regs(0x77d37528, 0xb62ec4bc, 0xcde8037d, 0x1c2c2838, 0xedffbff8, 0xc74c6516, 0x14383d8e, 0x2823ef91));
    NextRound(b + 1, 0xd5a79147, 0xec8726cb,
      Regs(0x363482c9, 0x77d37528, 0xb62ec4bc, 0xcde8037d, 0x6112a3b7, 0xedffbff8, 0xc74c6516, 0x14383d8e));
    NextRound(b + 2, 0x06ca6351, 0x702138a4,
      Regs(0xa0060b30, 0x363482c9, 0x77d37528, 0xb62ec4bc, 0xade79437, 0x6112a3b7, 0xedffbff8, 0xc74c6516));
    NextRound(b + 3, 0x14292967, 0xd3b7973b,
      Regs(0xea992a22, 0xa0060b30, 0x363482c9, 0x77d37528, 0x0109ab3a, 0xade79437, 0x6112a3b7, 0xedffbff8));
  }

  lemma Rounds32(b: int)
    requires b == 32
    ensures After(b + 4,
      Regs(0x65a0cfe4, 0xa9a7738c, 0xfe604df5, 0x98e12507, 0xf4b002d6, 0x085f3833, 0x59249dd3, 0x9cd9f5f6))
  {
    hide After, Word;
    Rounds28(28);
    Words32(32);
    NextRound(b, 0x27b70a85, 0x93f5997f,
      Regs(0x73b33bf5, 0xea992a22, 0xa0060b30, 0x363482c9, 0xba591112, 0x0109ab3a, 0xade79437, 0x6112a3b7));
    NextRound(b + 1, 0x2e1b2138, 0x3b68ba73,
      Regs(0x98e12507, 0x73b33bf5, 0xea992a22, 0xa0060b30, 0x9cd9f5f6, 0xba591112, 0x0109ab3a, 0xade79437));
    NextRound(b + 2, 0x4d2c6dfc, 0xaff4ffc1,
      Regs(0xfe604df5, 0x98e12507, 0x73b33bf5, 0xea992a22, 0x59249dd3, 0x9cd9f5f6, 0xba591112, 0x0109ab3a));
    NextRound(b + 3, 0x53380d13, 0xf10a5c62,
      Regs(0xa9a7738c, 0xfe604df5, 0x98e12507, 0x73b33bf5, 0x085f3833, 0x59249dd3, 0x9cd9f5f6, 0xba591112));
  }

  lemma Rounds36(b: int)
    requires b == 36
    ensures After(b + 4,
      Regs(0x79ea687a, 0x6dc57a8a, 0x34df1604, 0x41a65cb1, 0x1efbc0a0, 0xf0781bc8, 0xa507a53d, 0x0772a26b))
  {
    hide After, Word;
    Rounds32(32);
    Words32(32);
    NextRound(b, 0x650a7354, 0x0a8b3996,
      Regs(0x65a0cfe4, 0xa9a7738c, 0xfe604df5, 0x98e12507, 0xf4b002d6, 0x085f3833, 0x59249dd3, 0x9cd9f5f6));
    NextRound(b + 1, 0x766a0abb, 0x72af830a,
      Regs(0x41a65cb1, 0x65a0cfe4, 0xa9a7738c, 0xfe604df5, 0x0772a26b, 0xf4b002d6, 0x085f3833, 0x59249dd3));
    NextRound(b + 2, 0x81c2c92e, 0x9409e33e,
      Regs(0x34df1604, 0x41a65cb1, 0x65a0cfe4, 0xa9a7738c, 0xa507a53d, 0x0772a26b, 0xf4b002d6, 0x085f3833));
    NextRound(b + 3, 0x92722c85, 0x24641522,
      Regs(0x6dc57a8a, 0x34df1604, 0x41a65cb1, 0x65a0cfe4, 0xf0781bc8, 0xa507a53d, 0x0772a26b, 0xf4b002d6));
  }

  lemma Rounds40(b: int)
    requires b == 40
    ensures After(b + 4,
      Regs(0x9d4baf93, 0x17aa0dfe, 0xdf46652f, 0xd6670766, 0xfda24c2e, 0xdecd4715, 0x838b2711, 0x26352d63))
  {
    hide After, Word;
    Rounds36(36);
    Words40(40);
    NextRound(b, 0xa2bfe8a1, 0x9f47bf94,
      Regs(0x79ea687a, 0x6dc57a8a, 0x34df1604, 0x41a65cb1, 0x1efbc0a0, 0xf0781bc8, 0xa507a53d, 0x0772a26b));
    NextRound(b + 1, 0xa81a664b, 0xf0a64f5a,
      Regs(0xd6670766, 0x79ea687a, 0x6dc57a8a, 0x34df1604, 0x26352d63, 0x1efbc0a0, 0xf0781bc8, 0xa507a53d));
    NextRound(b + 2, 0xc24b8b70, 0x3e246a79,
      Regs(0xdf46652f, 0xd6670766, 0x79ea687a, 0x6dc57a8a, 0x838b2711, 0x26352d63, 0x1efbc0a0, 0xf0781bc8));
    NextRound(b + 3, 0xc76c51a3, 0x27333ba3,
      Regs(0x17aa0dfe, 0xdf46652f, 0xd6670766, 0x79ea687a, 0xdecd4715, 0x838b2711, 0x26352d63, 0x1efbc0a0));
  }

  lemma Rounds44(b: int)
    requires b == 44
    ensures After(b + 4,
      Regs(0x4172328d, 0xa14c14b0, 0x72ab4b91, 0x26628815, 0xfecf0bc6, 0xd57b94a9, 0xb7755da1, 0xa80f11f0))
  {
    hide After, Word;
    Rounds40(40);
    Words40(40);
    NextRound(b, 0xd192e819, 0x0c4763f2,
      Regs(0x9d4baf93, 0x17aa0dfe, 0xdf46652f, 0xd6670766, 0xfda24c2e, 0xdecd4715, 0x838b2711, 0x26352d63));
    NextRound(b + 1, 0xd6990624, 0x840abf27,
      Regs(0x26628815, 0x9d4baf93, 0x17aa0dfe, 0xdf46652f, 0xa80f11f0, 0xfda24c2e, 0xdecd4715, 0x838b2711));
    NextRound(b + 2, 0xf40e3585, 0x7a290d5d,
      Regs(0x72ab4b91, 0x26628815, 0x9d4baf93, 0x17aa0dfe, 0xb7755da1, 0xa80f11f0, 0xfda24c2e, 0xdecd4715));
    NextRound(b + 3, 0x106aa070, 0x065c43da,
      Regs(0xa14c14b0, 0x72ab4b91, 0x26628815, 0x9d4baf93, 0xd57b94a9, 0xb7755da1, 0xa80f11f0, 0xfda24c2e));
  }

  lemma Rounds48(b: int)
    requires b == 48
    ensures After(b + 4,
      Regs(0x886e7a22, 0x7a0508a1, 0xf11bfaa8, 0x05757ceb, 0x49231c1e, 0x52f1ccf7, 0x6e5c390c, 0xbd714038))
  {
    hide After, Word;
    Rounds44(44);
    Words48(48);
    NextRound(b, 0x19a4c116, 0xfb3e89cb,
      Regs(0x4172328d, 0xa14c14b0, 0x72ab4b91, 0x26628815, 0xfecf0bc6, 0xd57b94a9, 0xb7755da1, 0xa80f11f0));
    NextRound(b + 1, 0x1e376c08, 0xcc7617db,
      Regs(0x05757ceb, 0x4172328d, 0xa14c14b0, 0x72ab4b91, 0xbd714038, 0xfecf0bc6, 0xd57b94a9, 0xb7755da1));
    NextRound(b + 2, 0x2748774c, 0xb9e66c34,
      Regs(0xf11bfaa8, 0x05757ceb, 0x4172328d, 0xa14c14b0, 0x6e5c390c, 0xbd714038, 0xfecf0bc6, 0xd57b94a9));
    NextRound(b + 3, 0x34b0bcb5, 0xa9993667,
      Regs(0x7a0508a1, 0xf11bfaa8, 0x05757ceb, 0x4172328d, 0x52f1ccf7, 0x6e5c390c, 0xbd714038, 0xfecf0bc6));
  }

  lemma Rounds52(b: int)
    requires b == 52
    ensures After(b + 4,
      Regs(0x38cc9913, 0x3ec45cdb, 0xf5702fdb, 0x101fd28f, 0x54cb266b, 0xe50e1b4f, 0x9f4787c3, 0x529e7d00))
  {
    hide After, Word;
    Rounds48(48);
    Words48(48);
    NextRound(b, 0x391c0cb3, 0x84badedd,
      Regs(0x886e7a22, 0x7a0508a1, 0xf11bfaa8, 0x05757ceb, 0x49231c1e, 0x52f1ccf7, 0x6e5c390c, 0xbd714038));
    NextRound(b + 1, 0x4ed8aa4a, 0xc21462bc,
      Regs(0x101fd28f, 0x886e7a22, 0x7a0508a1, 0xf11bfaa8, 0x529e7d00, 0x49231c1e, 0x52f1ccf7, 0x6e5c390c));
    NextRound(b + 2, 0x5b9cca4f, 0x1487472c,
      Regs(0xf5702fdb, 0x101fd28f, 0x886e7a22, 0x7a0508a1, 0x9f4787c3, 0x529e7d00, 0x49231c1e, 0x52f1ccf7));
    NextRound(b + 3, 0x682e6ff3, 0xb20f7a99,
      Regs(0x3ec45cdb, 0xf5702fdb, 0x101fd28f, 0x886e7a22, 0xe50e1b4f, 0x9f4787c3, 0x529e7d00, 0x49231c1e));
  }

  lemma Rounds56(b: int)
    requires b == 56
    ensures After(b + 4,
      Regs(0xb6ae8fff, 0xffb70472, 0xc062d46f, 0xfcd1887b, 0xb21bad3d, 0x6d83bfc6, 0x7e44008e, 0x9b5e906c))
  {
    hide After, Word;
    Rounds52(52);
    Words56(56);
    NextRound(b, 0x748f82ee, 0xef57b9cd,
      Regs(0x38cc9913, 0x3ec45cdb, 0xf5702fdb, 0x101fd28f, 0x54cb266b, 0xe50e1b4f, 0x9f4787c3, 0x529e7d00));
    NextRound(b + 1, 0x78a5636f, 0xebe6b238,
      Regs(0xfcd1887b, 0x38cc9913, 0x3ec45cdb, 0xf5702fdb, 0x9b5e906c, 0x54cb266b, 0xe50e1b4f, 0x9f4787c3));
    NextRound(b + 2, 0x84c87814, 0x9fe3095e,
      Regs(0xc062d46f, 0xfcd1887b, 0x38cc9913, 0x3ec45cdb, 0x7e44008e, 0x9b5e906c, 0x54cb266b, 0xe50e1b4f));
    NextRound(b + 3, 0x8cc70208, 0x78bc8d4b,
      Regs(0xffb70472, 0xc062d46f, 0xfcd1887b, 0x38cc9913, 0x6d83bfc6, 0x7e44008e, 0x9b5e906c, 0x54cb266b));
  }

  lemma Rounds60(b: int)
    requires b == 60
    ensures After(b + 4,
      Regs(0x506e3058, 0xd39a2165, 0x04d24d6c, 0xb85e2ce9, 0x5ef50f24, 0xfb121210, 0x948d25b6, 0x961f4894))
  {
    hide After, Word;
    Rounds56(56);
    Words56(56);
    NextRound(b, 0x90befffa, 0xa43fcf15,
      Regs(0xb6ae8fff, 0xffb70472, 0xc062d46f, 0xfcd1887b, 0xb21bad3d, 0x6d83bfc6, 0x7e44008e, 0x9b5e906c));
    NextRound(b + 1, 0xa4506ceb, 0x668b2ff8,
      Regs(0xb85e2ce9, 0xb6ae8fff, 0xffb70472, 0xc062d46f, 0x961f4894, 0xb21bad3d, 0x6d83bfc6, 0x7e44008e));
    NextRound(b + 2, 0xbef9a3f7, 0xeeaba2cc,
      Regs(0x04d24d6c, 0xb85e2ce9, 0xb6ae8fff, 0xffb70472, 0x948d25b6, 0x961f4894, 0xb21bad3d, 0x6d83bfc6));
    NextRound(b + 3, 0xc67178f2, 0x12b1edeb,
      Regs(0xd39a2165, 0x04d24d6c, 0xb85e2ce9, 0xb6ae8fff, 0xfb121210, 0x948d25b6, 0x961f4894, 0xb21bad3d));
  }

  lemma LengthOfAbc()
    ensures LengthBytes(24) == [0, 0, 0, 0, 0, 0, 0, 24]
  {
    hide LengthBytes;
    LengthBelow256(24);
    assert Zeros(7) == [0, 0, 0, 0, 0, 0, 0];
  }

  lemma LengthBelow256(n: nat)
    requires n < 256
    ensures LengthBytes(n) == Zeros(7) + [n as byte]
  {
    hide BigEndian, Zeros, Pow256;
    PowEight();
    SmallDiv(n, 0x1_0000_0000_0000_0000);
    LowBytes(n, 8);
  }

  /** A number below 256 ends in its only byte. */
  lemma {:induction false} LowBytes(n: nat, k: nat)
    requires n < 256 && 1 <= k && n < Pow256(k)
    ensures BigEndian(n, k) == Zeros(k - 1) + [n as byte]
  {
    if k != 1 {
      PowPositive(k - 2);
      DivBound(n, k);
      assert Pow256(k - 1) == 256 * Pow256(k - 2) && n < Pow256(k - 1);
      SmallDiv(n, Pow256(k - 1));
      LowBytes(n, k - 1);
    } else {
      assert Pow256(0) == 1;
    }
  }

  lemma SmallDiv(n: nat, p: nat)
    requires n < p
    ensures n / p == 0 && n % p == n
  {
  }

  /** The padded message. */
  lemma AbcPadded()
    ensures var p := Pad([97, 98, 99]);
      && |p| == 64 && p[..4] == [97, 98, 99, 0x80] && p[63] == 24
      && forall k :: 4 <= k < 63 ==> p[k] == 0
  {
    hide LengthBytes, Zeros;
    LengthOfAbc();
    PadParts([97, 98, 99]);
    ZerosAre(52);
  }

  lemma ZerosAre(n: nat)
    ensures forall k :: 0 <= k < n ==> Zeros(n)[k] == 0
  {
  }

  lemma AbcWords()
    ensures |Pad([97, 98, 99])| == 64 && Words(Pad([97, 98, 99])) == ABC
  {
    hide Pad;
    AbcPadded();
    var p := Pad([97, 98, 99]);
    assert p[0] == p[..4][0] && p[1] == p[..4][1] && p[2] == p[..4][2] && p[3] == p[..4][3];
    assert WordOf(97, 98, 99, 0x80) == 0x61626380 && WordOf(0, 0, 0, 0) == 0 && WordOf(0, 0, 0, 24) == 0x18;
    hide WordOf;
    forall i | 0 <= i < 16
      ensures Words(p)[i] == ABC[i]
    {
      assert i != 0 && i != 15 ==> p[4 * i] == p[4 * i + 1] == p[4 * i + 2] == p[4 * i + 3] == 0;
    }
  }

  lemma AbcHash()
    ensures Compress(Initial(), ABC) ==
      Regs(0xba7816bf, 0x8f01cfea, 0x414140de, 0x5dae2223, 0xb00361a3, 0x96177a9c, 0xb410ff61, 0xf20015ad)
  {
    hide After, Compress;
    Rounds60(60);
    HashAfter(
      Regs(0x506e3058, 0xd39a2165, 0x04d24d6c, 0xb85e2ce9, 0x5ef50f24, 0xfb121210, 0x948d25b6, 0x961f4894));
  }

  lemma HashAfter(r: Regs)
    ensures After(64, r) ==> Compress(Initial(), ABC) == AddRegs(r, Initial())
  {
    hide Rounds, Initial;
  }

  /** The message digest of "abc" is the published one. */
  lemma DigestOfAbc()
    ensures Digest([97, 98, 99]) == [
      0xba, 0x78, 0x16, 0xbf, 0x8f, 0x01, 0xcf, 0xea, 0x41, 0x41, 0x40, 0xde, 0x5d, 0xae, 0x22, 0x23,
      0xb0, 0x03, 0x61, 0xa3, 0x96, 0x17, 0x7a, 0x9c, 0xb4, 0x10, 0xff, 0x61, 0xf2, 0x00, 0x15, 0xad]
  {
    hide Pad, Compress, Words;
    AbcWords();
    AbcHash();
    PadLength([97, 98, 99]);
    var p := Pad([97, 98, 99]);
    assert p[..0] == [] && p[0..] == p;
    assert HashBlocks([]) == Initial();
    assert HashBlocks(p) == Compress(Initial(), ABC);
  }
}
