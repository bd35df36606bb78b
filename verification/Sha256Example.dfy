// The example of section B.1 of FIPS 180-2: the digest of "abc", with the schedule and every round.
module Sha256Example {
  import opened Machine
  import opened Sha256Spec

  // Those three bytes, padded.
  function Block(): (m: seq<bv8>)
    ensures |m| == 64
  {
    [0x61, 0x62, 0x63, 0x80] + seq(59, _ => 0) + [0x18]
  }

  // The digest is ba7816bf 8f01cfea 414140de 5dae2223 b00361a3 96177a9c b410ff61 f20015ad.
  lemma DigestOfAbc(abc: seq<bv8>)
    requires abc == [0x61, 0x62, 0x63]
    ensures Sha256(abc) == [
      0xba, 0x78, 0x16, 0xbf, 0x8f, 0x01, 0xcf, 0xea, 0x41, 0x41, 0x40, 0xde, 0x5d, 0xae, 0x22, 0x23,
      0xb0, 0x03, 0x61, 0xa3, 0x96, 0x17, 0x7a, 0x9c, 0xb4, 0x10, 0xff, 0x61, 0xf2, 0x00, 0x15, 0xad]
  {
    PaddedAbc(abc);
    OneBlock(Pad(abc));
    DigestBytes();
    hide Fold, Pad, Digest, Block;
  }

  lemma PaddedAbc(abc: seq<bv8>)
    requires abc == [0x61, 0x62, 0x63]
    ensures Pad(abc) == Block()
  {
    NumberOfBits();
    hide NumberBytes, Zeros;
    var zeros, length := Zeros(52), NumberBytes(24);
    assert Pad(abc) == [0x61, 0x62, 0x63] + [0x80] + zeros + [0, 0, 0, 0] + length;
    assert zeros + [0, 0, 0, 0] + [0, 0, 0] == seq(59, _ => 0);
    assert Pad(abc) == [0x61, 0x62, 0x63, 0x80] + (zeros + [0, 0, 0, 0] + [0, 0, 0]) + [0x18];
  }

  lemma NumberOfBits()
    ensures NumberBytes(0) == [0, 0, 0, 0] && NumberBytes(24) == [0, 0, 0, 0x18] && Zeros(52) == seq(52, _ => 0)
  {}

  lemma OneBlock(m: seq<bv8>)
    requires m == Block()
    ensures Fold(INITIAL, m)
         == Hash(0xba7816bf, 0x8f01cfea, 0x414140de, 0x5dae2223, 0xb00361a3, 0x96177a9c, 0xb410ff61, 0xf20015ad)
  {
    hide Rounds, Block, AddHash;
    Rounds15(m);
    Added();
    FoldOne(m);
  }

  lemma FoldOne(m: seq<bv8>)
    requires |m| == 64
    ensures Fold(INITIAL, m) == AddHash(INITIAL, Rounds(INITIAL, m, 64))
  {
    hide Rounds, AddHash;
    assert m[..0] == [] && m[0..] == m;
  }

  lemma Added()
    ensures AddHash(INITIAL,
              Hash(0x506e3058, 0xd39a2165, 0x04d24d6c, 0xb85e2ce9, 0x5ef50f24, 0xfb121210, 0x948d25b6, 0x961f4894))
         == Hash(0xba7816bf, 0x8f01cfea, 0x414140de, 0x5dae2223, 0xb00361a3, 0x96177a9c, 0xb410ff61, 0xf20015ad)
  {}

  lemma DigestBytes()
    ensures Digest(Hash(0xba7816bf, 0x8f01cfea, 0x414140de, 0x5dae2223, 0xb00361a3, 0x96177a9c, 0xb410ff61, 0xf20015ad))
         == [
      0xba, 0x78, 0x16, 0xbf, 0x8f, 0x01, 0xcf, 0xea, 0x41, 0x41, 0x40, 0xde, 0x5d, 0xae, 0x22, 0x23,
      0xb0, 0x03, 0x61, 0xa3, 0x96, 0x17, 0x7a, 0x9c, 0xb4, 0x10, 0xff, 0x61, 0xf2, 0x00, 0x15, 0xad]
  {
    Bytes0();
    Bytes1();
    Bytes2();
    Bytes3();
    Bytes4();
    Bytes5();
    Bytes6();
    Bytes7();
    hide WordBytes;
  }

  lemma Bytes0()
    ensures WordBytes(0xba7816bf) == [0xba, 0x78, 0x16, 0xbf]
  {}

  lemma Bytes1()
    ensures WordBytes(0x8f01cfea) == [0x8f, 0x01, 0xcf, 0xea]
  {}

  lemma Bytes2()
    ensures WordBytes(0x414140de) == [0x41, 0x41, 0x40, 0xde]
  {}

  lemma Bytes3()
    ensures WordBytes(0x5dae2223) == [0x5d, 0xae, 0x22, 0x23]
  {}

  lemma Bytes4()
    ensures WordBytes(0xb00361a3) == [0xb0, 0x03, 0x61, 0xa3]
  {}

  lemma Bytes5()
    ensures WordBytes(0x96177a9c) == [0x96, 0x17, 0x7a, 0x9c]
  {}

  lemma Bytes6()
    ensures WordBytes(0xb410ff61) == [0xb4, 0x10, 0xff, 0x61]
  {}

  lemma Bytes7()
    ensures WordBytes(0xf20015ad) == [0xf2, 0x00, 0x15, 0xad]
  {}

  // The round computes a and e; the other variables move on.
  lemma OneRound(m: seq<bv8>, t: nat, s: Hash, w: bv32, a: bv32, e: bv32) returns (r: Hash)
    requires t < 64 && |m| == 64 && Rounds(INITIAL, m, t) == s && W(m, t) == w
    requires Round(s, K(t), w).a == a && Round(s, K(t), w).e == e
    ensures r == Hash(a, s.a, s.b, s.c, e, s.e, s.f, s.g) && Rounds(INITIAL, m, t + 1) == r
  {
    r := Hash(a, s.a, s.b, s.c, e, s.e, s.f, s.g);
    hide BigSigma0, BigSigma1, Sum, Ch, Maj, K, W;
  }

  lemma OneWord(m: seq<bv8>, t: nat, w16: bv32, w15: bv32, w7: bv32, w2: bv32, w: bv32)
    requires 16 <= t < 64 && |m| == 64
    requires W(m, t - 16) == w16 && W(m, t - 15) == w15 && W(m, t - 7) == w7 && W(m, t - 2) == w2
    requires Sum(Sum(Sum(SmallSigma1(w2), w7), SmallSigma0(w15)), w16) == w
    ensures W(m, t) == w
  {
    hide SmallSigma0, SmallSigma1, Sum, MessageWord;
    assert W(m, t) == Sum(Sum(Sum(SmallSigma1(W(m, t - 2)), W(m, t - 7)), SmallSigma0(W(m, t - 15))), W(m, t - 16));
  }

  //// The schedule

  lemma FirstWord(m: seq<bv8>)
    requires m == Block()
    ensures W(m, 0) == ( BigEndian(0x61, 0x62, 0x63, 0x80))
  {
    hide BigEndian;
  }

  lemma ZeroWord(m: seq<bv8>, t: nat)
    requires m == Block() && 1 <= t < 15
    ensures W(m, t) == ( BigEndian(0, 0, 0, 0))
  {
    hide BigEndian;
  }

  lemma LastWord(m: seq<bv8>)
    requires m == Block()
    ensures W(m, 15) == ( BigEndian(0, 0, 0, 0x18))
  {
    hide BigEndian;
  }

  lemma Words0(m: seq<bv8>)
    requires m == Block()
    ensures
      && W(m, 0) == 0x61626380 && W(m, 1) == 0x00000000 && W(m, 2) == 0x00000000 && W(m, 3) == 0x00000000
      && W(m, 4) == 0x00000000 && W(m, 5) == 0x00000000 && W(m, 6) == 0x00000000 && W(m, 7) == 0x00000000
      && W(m, 8) == 0x00000000 && W(m, 9) == 0x00000000 && W(m, 10) == 0x00000000 && W(m, 11) == 0x00000000
      && W(m, 12) == 0x00000000 && W(m, 13) == 0x00000000 && W(m, 14) == 0x00000000 && W(m, 15) == 0x00000018
  {
    assert BigEndian(0x61, 0x62, 0x63, 0x80) == 0x61626380 && BigEndian(0, 0, 0, 0x18) == 0x18;
    assert BigEndian(0, 0, 0, 0) == 0;
    hide BigEndian;
    FirstWord(m);
    forall t: nat | 1 <= t < 15 ensures W(m, t) == 0 { ZeroWord(m, t); }
    LastWord(m);
  }

  lemma Words1(m: seq<bv8>)
    requires m == Block()
    ensures
      && W(m, 16) == 0x61626380 && W(m, 17) == 0x000f0000 && W(m, 18) == 0x7da86405 && W(m, 19) == 0x600003c6
      && W(m, 20) == 0x3e9d7b78 && W(m, 21) == 0x0183fc00 && W(m, 22) == 0x12dcbfdb && W(m, 23) == 0xe2e2c38e
  {
    Words0(m);
    hide W, Block;
    OneWord(m, 16, 0x61626380, 0x00000000, 0x00000000, 0x00000000, 0x61626380);
    OneWord(m, 17, 0x00000000, 0x00000000, 0x00000000, 0x00000018, 0x000f0000);
    OneWord(m, 18, 0x00000000, 0x00000000, 0x00000000, 0x61626380, 0x7da86405);
    OneWord(m, 19, 0x00000000, 0x00000000, 0x00000000, 0x000f0000, 0x600003c6);
    OneWord(m, 20, 0x00000000, 0x00000000, 0x00000000, 0x7da86405, 0x3e9d7b78);
    OneWord(m, 21, 0x00000000, 0x00000000, 0x00000000, 0x600003c6, 0x0183fc00);
    OneWord(m, 22, 0x00000000, 0x00000000, 0x00000018, 0x3e9d7b78, 0x12dcbfdb);
    OneWord(m, 23, 0x00000000, 0x00000000, 0x61626380, 0x0183fc00, 0xe2e2c38e);
  }

  lemma Words2(m: seq<bv8>)
    requires m == Block()
    ensures
      && W(m, 24) == 0xc8215c1a && W(m, 25) == 0xb73679a2 && W(m, 26) == 0xe5bc3909 && W(m, 27) == 0x32663c5b
      && W(m, 28) == 0x9d209d67 && W(m, 29) == 0xec8726cb && W(m, 30) == 0x702138a4 && W(m, 31) == 0xd3b7973b
  {
    Words0(m);
    Words1(m);
    hide W, Block;
    OneWord(m, 24, 0x00000000, 0x00000000, 0x000f0000, 0x12dcbfdb, 0xc8215c1a);
    OneWord(m, 25, 0x00000000, 0x00000000, 0x7da86405, 0xe2e2c38e, 0xb73679a2);
    OneWord(m, 26, 0x00000000, 0x00000000, 0x600003c6, 0xc8215c1a, 0xe5bc3909);
    OneWord(m, 27, 0x00000000, 0x00000000, 0x3e9d7b78, 0xb73679a2, 0x32663c5b);
    OneWord(m, 28, 0x00000000, 0x00000000, 0x0183fc00, 0xe5bc3909, 0x9d209d67);
    OneWord(m, 29, 0x00000000, 0x00000000, 0x12dcbfdb, 0x32663c5b, 0xec8726cb);
    OneWord(m, 30, 0x00000000, 0x00000018, 0xe2e2c38e, 0x9d209d67, 0x702138a4);
    OneWord(m, 31, 0x00000018, 0x61626380, 0xc8215c1a, 0xec8726cb, 0xd3b7973b);
  }

  lemma Words3(m: seq<bv8>)
    requires m == Block()
    ensures
      && W(m, 32) == 0x93f5997f && W(m, 33) == 0x3b68ba73 && W(m, 34) == 0xaff4ffc1 && W(m, 35) == 0xf10a5c62
      && W(m, 36) == 0x0a8b3996 && W(m, 37) == 0x72af830a && W(m, 38) == 0x9409e33e && W(m, 39) == 0x24641522
  {
    Words1(m);
    Words2(m);
    hide W, Block;
    OneWord(m, 32, 0x61626380, 0x000f0000, 0xb73679a2, 0x702138a4, 0x93f5997f);
    OneWord(m, 33, 0x000f0000, 0x7da86405, 0xe5bc3909, 0xd3b7973b, 0x3b68ba73);
    OneWord(m, 34, 0x7da86405, 0x600003c6, 0x32663c5b, 0x93f5997f, 0xaff4ffc1);
    OneWord(m, 35, 0x600003c6, 0x3e9d7b78, 0x9d209d67, 0x3b68ba73, 0xf10a5c62);
    OneWord(m, 36, 0x3e9d7b78, 0x0183fc00, 0xec8726cb, 0xaff4ffc1, 0x0a8b3996);
    OneWord(m, 37, 0x0183fc00, 0x12dcbfdb, 0x702138a4, 0xf10a5c62, 0x72af830a);
    OneWord(m, 38, 0x12dcbfdb, 0xe2e2c38e, 0xd3b7973b, 0x0a8b3996, 0x9409e33e);
    OneWord(m, 39, 0xe2e2c38e, 0xc8215c1a, 0x93f5997f, 0x72af830a, 0x24641522);
  }

  lemma Words4(m: seq<bv8>)
    requires m == Block()
    ensures
      && W(m, 40) == 0x9f47bf94 && W(m, 41) == 0xf0a64f5a && W(m, 42) == 0x3e246a79 && W(m, 43) == 0x27333ba3
      && W(m, 44) == 0x0c4763f2 && W(m, 45) == 0x840abf27 && W(m, 46) == 0x7a290d5d && W(m, 47) == 0x065c43da
  {
    Words2(m);
    Words3(m);
    hide W, Block;
    OneWord(m, 40, 0xc8215c1a, 0xb73679a2, 0x3b68ba73, 0x9409e33e, 0x9f47bf94);
    OneWord(m, 41, 0xb73679a2, 0xe5bc3909, 0xaff4ffc1, 0x24641522, 0xf0a64f5a);
    OneWord(m, 42, 0xe5bc3909, 0x32663c5b, 0xf10a5c62, 0x9f47bf94, 0x3e246a79);
    OneWord(m, 43, 0x32663c5b, 0x9d209d67, 0x0a8b3996, 0xf0a64f5a, 0x27333ba3);
    OneWord(m, 44, 0x9d209d67, 0xec8726cb, 0x72af830a, 0x3e246a79, 0x0c4763f2);
    OneWord(m, 45, 0xec8726cb, 0x702138a4, 0x9409e33e, 0x27333ba3, 0x840abf27);
    OneWord(m, 46, 0x702138a4, 0xd3b7973b, 0x24641522, 0x0c4763f2, 0x7a290d5d);
    OneWord(m, 47, 0xd3b7973b, 0x93f5997f, 0x9f47bf94, 0x840abf27, 0x065c43da);
  }

  lemma Words5(m: seq<bv8>)
    requires m == Block()
    ensures
      && W(m, 48) == 0xfb3e89cb && W(m, 49) == 0xcc7617db && W(m, 50) == 0xb9e66c34 && W(m, 51) == 0xa9993667
      && W(m, 52) == 0x84badedd && W(m, 53) == 0xc21462bc && W(m, 54) == 0x1487472c && W(m, 55) == 0xb20f7a99
  {
    Words3(m);
    Words4(m);
    hide W, Block;
    OneWord(m, 48, 0x93f5997f, 0x3b68ba73, 0xf0a64f5a, 0x7a290d5d, 0xfb3e89cb);
    OneWord(m, 49, 0x3b68ba73, 0xaff4ffc1, 0x3e246a79, 0x065c43da, 0xcc7617db);
    OneWord(m, 50, 0xaff4ffc1, 0xf10a5c62, 0x27333ba3, 0xfb3e89cb, 0xb9e66c34);
    OneWord(m, 51, 0xf10a5c62, 0x0a8b3996, 0x0c4763f2, 0xcc7617db, 0xa9993667);
    OneWord(m, 52, 0x0a8b3996, 0x72af830a, 0x840abf27, 0xb9e66c34, 0x84badedd);
    OneWord(m, 53, 0x72af830a, 0x9409e33e, 0x7a290d5d, 0xa9993667, 0xc21462bc);
    OneWord(m, 54, 0x9409e33e, 0x24641522, 0x065c43da, 0x84badedd, 0x1487472c);
    OneWord(m, 55, 0x24641522, 0x9f47bf94, 0xfb3e89cb, 0xc21462bc, 0xb20f7a99);
  }

  lemma Words6(m: seq<bv8>)
    requires m == Block()
    ensures
      && W(m, 56) == 0xef57b9cd && W(m, 57) == 0xebe6b238 && W(m, 58) == 0x9fe3095e && W(m, 59) == 0x78bc8d4b
      && W(m, 60) == 0xa43fcf15 && W(m, 61) == 0x668b2ff8 && W(m, 62) == 0xeeaba2cc && W(m, 63) == 0x12b1edeb
  {
    Words4(m);
    Words5(m);
    hide W, Block;
    OneWord(m, 56, 0x9f47bf94, 0xf0a64f5a, 0xcc7617db, 0x1487472c, 0xef57b9cd);
    OneWord(m, 57, 0xf0a64f5a, 0x3e246a79, 0xb9e66c34, 0xb20f7a99, 0xebe6b238);
    OneWord(m, 58, 0x3e246a79, 0x27333ba3, 0xa9993667, 0xef57b9cd, 0x9fe3095e);
    OneWord(m, 59, 0x27333ba3, 0x0c4763f2, 0x84badedd, 0xebe6b238, 0x78bc8d4b);
    OneWord(m, 60, 0x0c4763f2, 0x840abf27, 0xc21462bc, 0x9fe3095e, 0xa43fcf15);
    OneWord(m, 61, 0x840abf27, 0x7a290d5d, 0x1487472c, 0x78bc8d4b, 0x668b2ff8);
    OneWord(m, 62, 0x7a290d5d, 0x065c43da, 0xb20f7a99, 0xa43fcf15, 0xeeaba2cc);
    OneWord(m, 63, 0x065c43da, 0xfb3e89cb, 0xef57b9cd, 0x668b2ff8, 0x12b1edeb);
  }

  //// The rounds

  lemma Constants0()
    ensures K(0) == 0x428a2f98 && K(1) == 0x71374491 && K(2) == 0xb5c0fbcf && K(3) == 0xe9b5dba5
  {}

  lemma Rounds0(m: seq<bv8>)
    requires m == Block()
    ensures Rounds(INITIAL, m, 4)
         == Hash(0xd550f666, 0xc8c347a7, 0x5a6ad9ad, 0x5d6aebcd, 0x24e00850, 0xf92939eb, 0x78ce7989, 0xfa2a4622)
  {
    assert Rounds(INITIAL, m, 0) == INITIAL;
    Words0(m);
    Constants0();
    hide Block, W, Rounds, K;
    var s := INITIAL;
    s := OneRound(m, 0, s, 0x61626380, 0x5d6aebcd, 0xfa2a4622);
    s := OneRound(m, 1, s, 0x00000000, 0x5a6ad9ad, 0x78ce7989);
    s := OneRound(m, 2, s, 0x00000000, 0xc8c347a7, 0xf92939eb);
    s := OneRound(m, 3, s, 0x00000000, 0xd550f666, 0x24e00850);
  }

  lemma Constants1()
    ensures K(4) == 0x3956c25b && K(5) == 0x59f111f1 && K(6) == 0x923f82a4 && K(7) == 0xab1c5ed5
  {}

  lemma Rounds1(m: seq<bv8>)
    requires m == Block()
    ensures Rounds(INITIAL, m, 8)
         == Hash(0x85a07b5f, 0xe5030380, 0x2b4209f5, 0x04409a6a, 0x0c657a79, 0x9b27a401, 0x714260ad, 0x43ada245)
  {
    Rounds0(m);
    Words0(m);
    Constants1();
    hide Block, W, Rounds, K;
    var s := Hash(0xd550f666, 0xc8c347a7, 0x5a6ad9ad, 0x5d6aebcd, 0x24e00850, 0xf92939eb, 0x78ce7989, 0xfa2a4622);
    s := OneRound(m, 4, s, 0x00000000, 0x04409a6a, 0x43ada245);
    s := OneRound(m, 5, s, 0x00000000, 0x2b4209f5, 0x714260ad);
    s := OneRound(m, 6, s, 0x00000000, 0xe5030380, 0x9b27a401);
    s := OneRound(m, 7, s, 0x00000000, 0x85a07b5f, 0x0c657a79);
  }

  lemma Constants2()
    ensures K(8) == 0xd807aa98 && K(9) == 0x12835b01 && K(10) == 0x243185be && K(11) == 0x550c7dc3
  {}

  lemma Rounds2(m: seq<bv8>)
    requires m == Block()
    ensures Rounds(INITIAL, m, 12)
         == Hash(0xf71fc5a9, 0x4798a3f4, 0x8c87346b, 0x8e04ecb9, 0x816fd6e9, 0x436b23e8, 0x1cc92596, 0x32ca2d8c)
  {
    Rounds1(m);
    Words0(m);
    Constants2();
    hide Block, W, Rounds, K;
    var s := Hash(0x85a07b5f, 0xe5030380, 0x2b4209f5, 0x04409a6a, 0x0c657a79, 0x9b27a401, 0x714260ad, 0x43ada245);
    s := OneRound(m, 8, s, 0x00000000, 0x8e04ecb9, 0x32ca2d8c);
    s := OneRound(m, 9, s, 0x00000000, 0x8c87346b, 0x1cc92596);
    s := OneRound(m, 10, s, 0x00000000, 0x4798a3f4, 0x436b23e8);
    s := OneRound(m, 11, s, 0x00000000, 0xf71fc5a9, 0x816fd6e9);
  }

  lemma Constants3()
    ensures K(12) == 0x72be5d74 && K(13) == 0x80deb1fe && K(14) == 0x9bdc06a7 && K(15) == 0xc19bf174
  {}

  lemma Rounds3(m: seq<bv8>)
    requires m == Block()
    ensures Rounds(INITIAL, m, 16)
         == Hash(0xb0fa238e, 0xc0645fde, 0xd932eb16, 0x87912990, 0x07590dcd, 0x0b92f20c, 0x745a48de, 0x1e578218)
  {
    Rounds2(m);
    Words0(m);
    Constants3();
    hide Block, W, Rounds, K;
    var s := Hash(0xf71fc5a9, 0x4798a3f4, 0x8c87346b, 0x8e04ecb9, 0x816fd6e9, 0x436b23e8, 0x1cc92596, 0x32ca2d8c);
    s := OneRound(m, 12, s, 0x00000000, 0x87912990, 0x1e578218);
    s := OneRound(m, 13, s, 0x00000000, 0xd932eb16, 0x745a48de);
    s := OneRound(m, 14, s, 0x00000000, 0xc0645fde, 0x0b92f20c);
    s := OneRound(m, 15, s, 0x00000018, 0xb0fa238e, 0x07590dcd);
  }

  lemma Constants4()
    ensures K(16) == 0xe49b69c1 && K(17) == 0xefbe4786 && K(18) == 0x0fc19dc6 && K(19) == 0x240ca1cc
  {}

  lemma Rounds4(m: seq<bv8>)
    requires m == Block()
    ensures Rounds(INITIAL, m, 20)
         == Hash(0xe1f20c33, 0xfe777bbf, 0xc2fbd9d1, 0x21da9a9b, 0xb0638179, 0xcc899961, 0x846ee454, 0x8034229c)
  {
    Rounds3(m);
    Words1(m);
    Constants4();
    hide Block, W, Rounds, K;
    var s := Hash(0xb0fa238e, 0xc0645fde, 0xd932eb16, 0x87912990, 0x07590dcd, 0x0b92f20c, 0x745a48de, 0x1e578218);
    s := OneRound(m, 16, s, 0x61626380, 0x21da9a9b, 0x8034229c);
    s := OneRound(m, 17, s, 0x000f0000, 0xc2fbd9d1, 0x846ee454);
    s := OneRound(m, 18, s, 0x7da86405, 0xfe777bbf, 0xcc899961);
    s := OneRound(m, 19, s, 0x600003c6, 0xe1f20c33, 0xb0638179);
  }

  lemma Constants5()
    ensures K(20) == 0x2de92c6f && K(21) == 0x4a7484aa && K(22) == 0x5cb0a9dc && K(23) == 0x76f988da
  {}

  lemma Rounds5(m: seq<bv8>)
    requires m == Block()
    ensures Rounds(INITIAL, m, 24)
         == Hash(0xc5d53d8d, 0xa7a3623f, 0xc2606d6d, 0x9dc68b63, 0xaa47c347, 0x49f5114a, 0xe1257970, 0x8ada8930)
  {
    Rounds4(m);
    Words1(m);
    Constants5();
    hide Block, W, Rounds, K;
    var s := Hash(0xe1f20c33, 0xfe777bbf, 0xc2fbd9d1, 0x21da9a9b, 0xb0638179, 0xcc899961, 0x846ee454, 0x8034229c);
    s := OneRound(m, 20, s, 0x3e9d7b78, 0x9dc68b63, 0x8ada8930);
    s := OneRound(m, 21, s, 0x0183fc00, 0xc2606d6d, 0xe1257970);
    s := OneRound(m, 22, s, 0x12dcbfdb, 0xa7a3623f, 0x49f5114a);
    s := OneRound(m, 23, s, 0xe2e2c38e, 0xc5d53d8d, 0xaa47c347);
  }

  lemma Constants6()
    ensures K(24) == 0x983e5152 && K(25) == 0xa831c66d && K(26) == 0xb00327c8 && K(27) == 0xbf597fc7
  {}

  lemma Rounds6(m: seq<bv8>)
    requires m == Block()
    ensures Rounds(INITIAL, m, 28)
         == Hash(0x77d37528, 0xb62ec4bc, 0xcde8037d, 0x1c2c2838, 0xedffbff8, 0xc74c6516, 0x14383d8e, 0x2823ef91)
  {
    Rounds5(m);
    Words2(m);
    Constants6();
    hide Block, W, Rounds, K;
    var s := Hash(0xc5d53d8d, 0xa7a3623f, 0xc2606d6d, 0x9dc68b63, 0xaa47c347, 0x49f5114a, 0xe1257970, 0x8ada8930);
    s := OneRound(m, 24, s, 0xc8215c1a, 0x1c2c2838, 0x2823ef91);
    s := OneRound(m, 25, s, 0xb73679a2, 0xcde8037d, 0x14383d8e);
    s := OneRound(m, 26, s, 0xe5bc3909, 0xb62ec4bc, 0xc74c6516);
    s := OneRound(m, 27, s, 0x32663c5b, 0x77d37528, 0xedffbff8);
  }

  lemma Constants7()
    ensures K(28) == 0xc6e00bf3 && K(29) == 0xd5a79147 && K(30) == 0x06ca6351 && K(31) == 0x14292967
  {}

  lemma Rounds7(m: seq<bv8>)
    requires m == Block()
    ensures Rounds(INITIAL, m, 32)
         == Hash(0x73b33bf5, 0xea992a22, 0xa0060b30, 0x363482c9, 0xba591112, 0x0109ab3a, 0xade79437, 0x6112a3b7)
  {
    Rounds6(m);
    Words2(m);
    Constants7();
    hide Block, W, Rounds, K;
    var s := Hash(0x77d37528, 0xb62ec4bc, 0xcde8037d, 0x1c2c2838, 0xedffbff8, 0xc74c6516, 0x14383d8e, 0x2823ef91);
    s := OneRound(m, 28, s, 0x9d209d67, 0x363482c9, 0x6112a3b7);
    s := OneRound(m, 29, s, 0xec8726cb, 0xa0060b30, 0xade79437);
    s := OneRound(m, 30, s, 0x702138a4, 0xea992a22, 0x0109ab3a);
    s := OneRound(m, 31, s, 0xd3b7973b, 0x73b33bf5, 0xba591112);
  }

  lemma Constants8()
    ensures K(32) == 0x27b70a85 && K(33) == 0x2e1b2138 && K(34) == 0x4d2c6dfc && K(35) == 0x53380d13
  {}

  lemma Rounds8(m: seq<bv8>)
    requires m == Block()
    ensures Rounds(INITIAL, m, 36)
         == Hash(0x65a0cfe4, 0xa9a7738c, 0xfe604df5, 0x98e12507, 0xf4b002d6, 0x085f3833, 0x59249dd3, 0x9cd9f5f6)
  {
    Rounds7(m);
    Words3(m);
    Constants8();
    hide Block, W, Rounds, K;
    var s := Hash(0x73b33bf5, 0xea992a22, 0xa0060b30, 0x363482c9, 0xba591112, 0x0109ab3a, 0xade79437, 0x6112a3b7);
    s := OneRound(m, 32, s, 0x93f5997f, 0x98e12507, 0x9cd9f5f6);
    s := OneRound(m, 33, s, 0x3b68ba73, 0xfe604df5, 0x59249dd3);
    s := OneRound(m, 34, s, 0xaff4ffc1, 0xa9a7738c, 0x085f3833);
    s := OneRound(m, 35, s, 0xf10a5c62, 0x65a0cfe4, 0xf4b002d6);
  }

  lemma Constants9()
    ensures K(36) == 0x650a7354 && K(37) == 0x766a0abb && K(38) == 0x81c2c92e && K(39) == 0x92722c85
  {}

  lemma Rounds9(m: seq<bv8>)
    requires m == Block()
    ensures Rounds(INITIAL, m, 40)
         == Hash(0x79ea687a, 0x6dc57a8a, 0x34df1604, 0x41a65cb1, 0x1efbc0a0, 0xf0781bc8, 0xa507a53d, 0x0772a26b)
  {
    Rounds8(m);
    Words3(m);
    Constants9();
    hide Block, W, Rounds, K;
    var s := Hash(0x65a0cfe4, 0xa9a7738c, 0xfe604df5, 0x98e12507, 0xf4b002d6, 0x085f3833, 0x59249dd3, 0x9cd9f5f6);
    s := OneRound(m, 36, s, 0x0a8b3996, 0x41a65cb1, 0x0772a26b);
    s := OneRound(m, 37, s, 0x72af830a, 0x34df1604, 0xa507a53d);
    s := OneRound(m, 38, s, 0x9409e33e, 0x6dc57a8a, 0xf0781bc8);
    s := OneRound(m, 39, s, 0x24641522, 0x79ea687a, 0x1efbc0a0);
  }

  lemma Constants10()
    ensures K(40) == 0xa2bfe8a1 && K(41) == 0xa81a664b && K(42) == 0xc24b8b70 && K(43) == 0xc76c51a3
  {}

  lemma Rounds10(m: seq<bv8>)
    requires m == Block()
    ensures Rounds(INITIAL, m, 44)
         == Hash(0x9d4baf93, 0x17aa0dfe, 0xdf46652f, 0xd6670766, 0xfda24c2e, 0xdecd4715, 0x838b2711, 0x26352d63)
  {
    Rounds9(m);
    Words4(m);
    Constants10();
    hide Block, W, Rounds, K;
    var s := Hash(0x79ea687a, 0x6dc57a8a, 0x34df1604, 0x41a65cb1, 0x1efbc0a0, 0xf0781bc8, 0xa507a53d, 0x0772a26b);
    s := OneRound(m, 40, s, 0x9f47bf94, 0xd6670766, 0x26352d63);
    s := OneRound(m, 41, s, 0xf0a64f5a, 0xdf46652f, 0x838b2711);
    s := OneRound(m, 42, s, 0x3e246a79, 0x17aa0dfe, 0xdecd4715);
    s := OneRound(m, 43, s, 0x27333ba3, 0x9d4baf93, 0xfda24c2e);
  }

  lemma Constants11()
    ensures K(44) == 0xd192e819 && K(45) == 0xd6990624 && K(46) == 0xf40e3585 && K(47) == 0x106aa070
  {}

  lemma Rounds11(m: seq<bv8>)
    requires m == Block()
    ensures Rounds(INITIAL, m, 48)
         == Hash(0x4172328d, 0xa14c14b0, 0x72ab4b91, 0x26628815, 0xfecf0bc6, 0xd57b94a9, 0xb7755da1, 0xa80f11f0)
  {
    Rounds10(m);
    Words4(m);
    Constants11();
    hide Block, W, Rounds, K;
    var s := Hash(0x9d4baf93, 0x17aa0dfe, 0xdf46652f, 0xd6670766, 0xfda24c2e, 0xdecd4715, 0x838b2711, 0x26352d63);
    s := OneRound(m, 44, s, 0x0c4763f2, 0x26628815, 0xa80f11f0);
    s := OneRound(m, 45, s, 0x840abf27, 0x72ab4b91, 0xb7755da1);
    s := OneRound(m, 46, s, 0x7a290d5d, 0xa14c14b0, 0xd57b94a9);
    s := OneRound(m, 47, s, 0x065c43da, 0x4172328d, 0xfecf0bc6);
  }

  lemma Constants12()
    ensures K(48) == 0x19a4c116 && K(49) == 0x1e376c08 && K(50) == 0x2748774c && K(51) == 0x34b0bcb5
  {}

  lemma Rounds12(m: seq<bv8>)
    requires m == Block()
    ensures Rounds(INITIAL, m, 52)
         == Hash(0x886e7a22, 0x7a0508a1, 0xf11bfaa8, 0x05757ceb, 0x49231c1e, 0x52f1ccf7, 0x6e5c390c, 0xbd714038)
  {
    Rounds11(m);
    Words5(m);
    Constants12();
    hide Block, W, Rounds, K;
    var s := Hash(0x4172328d, 0xa14c14b0, 0x72ab4b91, 0x26628815, 0xfecf0bc6, 0xd57b94a9, 0xb7755da1, 0xa80f11f0);
    s := OneRound(m, 48, s, 0xfb3e89cb, 0x05757ceb, 0xbd714038);
    s := OneRound(m, 49, s, 0xcc7617db, 0xf11bfaa8, 0x6e5c390c);
    s := OneRound(m, 50, s, 0xb9e66c34, 0x7a0508a1, 0x52f1ccf7);
    s := OneRound(m, 51, s, 0xa9993667, 0x886e7a22, 0x49231c1e);
  }

  lemma Constants13()
    ensures K(52) == 0x391c0cb3 && K(53) == 0x4ed8aa4a && K(54) == 0x5b9cca4f && K(55) == 0x682e6ff3
  {}

  lemma Rounds13(m: seq<bv8>)
    requires m == Block()
    ensures Rounds(INITIAL, m, 56)
         == Hash(0x38cc9913, 0x3ec45cdb, 0xf5702fdb, 0x101fd28f, 0x54cb266b, 0xe50e1b4f, 0x9f4787c3, 0x529e7d00)
  {
    Rounds12(m);
    Words5(m);
    Constants13();
    hide Block, W, Rounds, K;
    var s := Hash(0x886e7a22, 0x7a0508a1, 0xf11bfaa8, 0x05757ceb, 0x49231c1e, 0x52f1ccf7, 0x6e5c390c, 0xbd714038);
    s := OneRound(m, 52, s, 0x84badedd, 0x101fd28f, 0x529e7d00);
    s := OneRound(m, 53, s, 0xc21462bc, 0xf5702fdb, 0x9f4787c3);
    s := OneRound(m, 54, s, 0x1487472c, 0x3ec45cdb, 0xe50e1b4f);
    s := OneRound(m, 55, s, 0xb20f7a99, 0x38cc9913, 0x54cb266b);
  }

  lemma Constants14()
    ensures K(56) == 0x748f82ee && K(57) == 0x78a5636f && K(58) == 0x84c87814 && K(59) == 0x8cc70208
  {}

  lemma Rounds14(m: seq<bv8>)
    requires m == Block()
    ensures Rounds(INITIAL, m, 60)
         == Hash(0xb6ae8fff, 0xffb70472, 0xc062d46f, 0xfcd1887b, 0xb21bad3d, 0x6d83bfc6, 0x7e44008e, 0x9b5e906c)
  {
    Rounds13(m);
    Words6(m);
    Constants14();
    hide Block, W, Rounds, K;
    var s := Hash(0x38cc9913, 0x3ec45cdb, 0xf5702fdb, 0x101fd28f, 0x54cb266b, 0xe50e1b4f, 0x9f4787c3, 0x529e7d00);
    s := OneRound(m, 56, s, 0xef57b9cd, 0xfcd1887b, 0x9b5e906c);
    s := OneRound(m, 57, s, 0xebe6b238, 0xc062d46f, 0x7e44008e);
    s := OneRound(m, 58, s, 0x9fe3095e, 0xffb70472, 0x6d83bfc6);
    s := OneRound(m, 59, s, 0x78bc8d4b, 0xb6ae8fff, 0xb21bad3d);
  }

  lemma Constants15()
    ensures K(60) == 0x90befffa && K(61) == 0xa4506ceb && K(62) == 0xbef9a3f7 && K(63) == 0xc67178f2
  {}

  lemma Rounds15(m: seq<bv8>)
    requires m == Block()
    ensures Rounds(INITIAL, m, 64)
         == Hash(0x506e3058, 0xd39a2165, 0x04d24d6c, 0xb85e2ce9, 0x5ef50f24, 0xfb121210, 0x948d25b6, 0x961f4894)
  {
    Rounds14(m);
    Words6(m);
    Constants15();
    hide Block, W, Rounds, K;
    var s := Hash(0xb6ae8fff, 0xffb70472, 0xc062d46f, 0xfcd1887b, 0xb21bad3d, 0x6d83bfc6, 0x7e44008e, 0x9b5e906c);
    s := OneRound(m, 60, s, 0xa43fcf15, 0xb85e2ce9, 0x961f4894);
    s := OneRound(m, 61, s, 0x668b2ff8, 0x04d24d6c, 0x948d25b6);
    s := OneRound(m, 62, s, 0xeeaba2cc, 0xd39a2165, 0xfb121210);
    s := OneRound(m, 63, s, 0x12b1edeb, 0x506e3058, 0x5ef50f24);
  }
}
