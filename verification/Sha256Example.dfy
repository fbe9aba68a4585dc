/** The standard's one-block example, "abc": its digest, worked out step by step. */
module Sha256Example {
  import opened Sha256Standard
  import opened Sha256

  const ABC: seq<Byte> := [0x61, 0x62, 0x63]

  const W0: seq<Word> := [
    0x61626380, 0x00000000, 0x00000000, 0x00000000, 0x00000000, 0x00000000, 0x00000000, 0x00000000
  ]
  const W1: seq<Word> := [
    0x00000000, 0x00000000, 0x00000000, 0x00000000, 0x00000000, 0x00000000, 0x00000000, 0x00000018
  ]
  const W2: seq<Word> := [
    0x61626380, 0x000f0000, 0x7da86405, 0x600003c6, 0x3e9d7b78, 0x0183fc00, 0x12dcbfdb, 0xe2e2c38e
  ]
  const W3: seq<Word> := [
    0xc8215c1a, 0xb73679a2, 0xe5bc3909, 0x32663c5b, 0x9d209d67, 0xec8726cb, 0x702138a4, 0xd3b7973b
  ]
  const W4: seq<Word> := [
    0x93f5997f, 0x3b68ba73, 0xaff4ffc1, 0xf10a5c62, 0x0a8b3996, 0x72af830a, 0x9409e33e, 0x24641522
  ]
  const W5: seq<Word> := [
    0x9f47bf94, 0xf0a64f5a, 0x3e246a79, 0x27333ba3, 0x0c4763f2, 0x840abf27, 0x7a290d5d, 0x065c43da
  ]
  const W6: seq<Word> := [
    0xfb3e89cb, 0xcc7617db, 0xb9e66c34, 0xa9993667, 0x84badedd, 0xc21462bc, 0x1487472c, 0xb20f7a99
  ]
  const W7: seq<Word> := [
    0xef57b9cd, 0xebe6b238, 0x9fe3095e, 0x78bc8d4b, 0xa43fcf15, 0x668b2ff8, 0xeeaba2cc, 0x12b1edeb
  ]

  const V0: Working := Working(
    0x6a09e667, 0xbb67ae85, 0x3c6ef372, 0xa54ff53a, 0x510e527f, 0x9b05688c, 0x1f83d9ab, 0x5be0cd19
  )
  const V1: Working := Working(
    0xd550f666, 0xc8c347a7, 0x5a6ad9ad, 0x5d6aebcd, 0x24e00850, 0xf92939eb, 0x78ce7989, 0xfa2a4622
  )
  const V2: Working := Working(
    0x85a07b5f, 0xe5030380, 0x2b4209f5, 0x04409a6a, 0x0c657a79, 0x9b27a401, 0x714260ad, 0x43ada245
  )
  const V3: Working := Working(
    0xf71fc5a9, 0x4798a3f4, 0x8c87346b, 0x8e04ecb9, 0x816fd6e9, 0x436b23e8, 0x1cc92596, 0x32ca2d8c
  )
  const V4: Working := Working(
    0xb0fa238e, 0xc0645fde, 0xd932eb16, 0x87912990, 0x07590dcd, 0x0b92f20c, 0x745a48de, 0x1e578218
  )
  const V5: Working := Working(
    0xe1f20c33, 0xfe777bbf, 0xc2fbd9d1, 0x21da9a9b, 0xb0638179, 0xcc899961, 0x846ee454, 0x8034229c
  )
  const V6: Working := Working(
    0xc5d53d8d, 0xa7a3623f, 0xc2606d6d, 0x9dc68b63, 0xaa47c347, 0x49f5114a, 0xe1257970, 0x8ada8930
  )
  const V7: Working := Working(
    0x77d37528, 0xb62ec4bc, 0xcde8037d, 0x1c2c2838, 0xedffbff8, 0xc74c6516, 0x14383d8e, 0x2823ef91
  )
  const V8: Working := Working(
    0x73b33bf5, 0xea992a22, 0xa0060b30, 0x363482c9, 0xba591112, 0x0109ab3a, 0xade79437, 0x6112a3b7
  )
  const V9: Working := Working(
    0x65a0cfe4, 0xa9a7738c, 0xfe604df5, 0x98e12507, 0xf4b002d6, 0x085f3833, 0x59249dd3, 0x9cd9f5f6
  )
  const V10: Working := Working(
    0x79ea687a, 0x6dc57a8a, 0x34df1604, 0x41a65cb1, 0x1efbc0a0, 0xf0781bc8, 0xa507a53d, 0x0772a26b
  )
  const V11: Working := Working(
    0x9d4baf93, 0x17aa0dfe, 0xdf46652f, 0xd6670766, 0xfda24c2e, 0xdecd4715, 0x838b2711, 0x26352d63
  )
  const V12: Working := Working(
    0x4172328d, 0xa14c14b0, 0x72ab4b91, 0x26628815, 0xfecf0bc6, 0xd57b94a9, 0xb7755da1, 0xa80f11f0
  )
  const V13: Working := Working(
    0x886e7a22, 0x7a0508a1, 0xf11bfaa8, 0x05757ceb, 0x49231c1e, 0x52f1ccf7, 0x6e5c390c, 0xbd714038
  )
  const V14: Working := Working(
    0x38cc9913, 0x3ec45cdb, 0xf5702fdb, 0x101fd28f, 0x54cb266b, 0xe50e1b4f, 0x9f4787c3, 0x529e7d00
  )
  const V15: Working := Working(
    0xb6ae8fff, 0xffb70472, 0xc062d46f, 0xfcd1887b, 0xb21bad3d, 0x6d83bfc6, 0x7e44008e, 0x9b5e906c
  )
  const V16: Working := Working(
    0x506e3058, 0xd39a2165, 0x04d24d6c, 0xb85e2ce9, 0x5ef50f24, 0xfb121210, 0x948d25b6, 0x961f4894
  )

  const HASH: seq<Word> := [
    0xba7816bf, 0x8f01cfea, 0x414140de, 0x5dae2223, 0xb00361a3, 0x96177a9c, 0xb410ff61, 0xf20015ad
  ]

  const DIGEST: seq<Byte> := [
    0xba, 0x78, 0x16, 0xbf, 0x8f, 0x01, 0xcf, 0xea, 0x41, 0x41, 0x40, 0xde, 0x5d, 0xae, 0x22, 0x23,
    0xb0, 0x03, 0x61, 0xa3, 0x96, 0x17, 0x7a, 0x9c, 0xb4, 0x10, 0xff, 0x61, 0xf2, 0x00, 0x15, 0xad
  ]

  // ---------- Padding ----------

  function Block(): (b: seq<Byte>)
    ensures |b| == 64
  {
    ABC + [0x80] + Zeros(52) + [0, 0, 0, 0, 0, 0, 0, 24]
  }

  lemma Padded()
    ensures Pad(ABC) == Block()
  {
    hide BigEndian;
    LengthBytes();
    assert Zeros(7) + [24] == [0, 0, 0, 0, 0, 0, 0, 24];
  }

  lemma LengthBytes()
    ensures BigEndian(24, 8) == Zeros(7) + [24]
  {
    assert ByteOfBits(Binary(24, 8)) == 24;
    hide Binary, ByteOfBits;
    NoBytes(7);
    assert BigEndian(24, 8) == BigEndian(0, 7) + [24];
  }

  lemma {:induction false} NoBytes(k: nat)
    ensures BigEndian(0, k) == Zeros(k)
  {
    if k > 0 {
      NoBytes(k - 1);
      assert ByteOfBits(Binary(0, 8)) == 0;
    }
  }

  // ---------- The message schedule ----------

  /** The schedule's recurrence on its last sixteen words. */
  function Extend(w: seq<Word>): (r: seq<Word>)
    requires 16 <= |w|
    ensures |r| == |w| + 1
  {
    var n := |w|;
    w + [Sum4(SmallSigma1(w[n - 2]), w[n - 7], SmallSigma0(w[n - 15]), w[n - 16])]
  }

  function ExtendEight(w: seq<Word>): (r: seq<Word>)
    requires 16 <= |w|
    ensures |r| == |w| + 8
  {
    Extend(Extend(Extend(Extend(Extend(Extend(Extend(Extend(w))))))))
  }

  lemma ScheduleExtends(t: nat)
    requires 16 <= t
    ensures Schedule(Block(), t + 1) == Extend(Schedule(Block(), t))
  {
    hide Block, Sum4, SmallSigma0, SmallSigma1;
  }

  lemma ExtendAfter(p: seq<Word>, w: seq<Word>)
    requires 16 <= |w|
    ensures Extend(p + w) == p + Extend(w)
  {
    hide Sum4, SmallSigma0, SmallSigma1;
  }

  lemma EightAfter(p: seq<Word>, w: seq<Word>)
    requires 16 <= |w|
    ensures ExtendEight(p + w) == p + ExtendEight(w)
  {
    hide Extend;
    var w1 := Extend(w);
    var w2 := Extend(w1);
    var w3 := Extend(w2);
    var w4 := Extend(w3);
    var w5 := Extend(w4);
    var w6 := Extend(w5);
    var w7 := Extend(w6);
    ExtendAfter(p, w);
    ExtendAfter(p, w1);
    ExtendAfter(p, w2);
    ExtendAfter(p, w3);
    ExtendAfter(p, w4);
    ExtendAfter(p, w5);
    ExtendAfter(p, w6);
    ExtendAfter(p, w7);
  }

  /** Eight more words `z` after a schedule that ends in `x` and `y`. */
  lemma EightWords(t: nat, p: seq<Word>, x: seq<Word>, y: seq<Word>, z: seq<Word>)
    requires 16 <= t && |x| == |y| == 8 && Schedule(Block(), t) == p + x + y
    requires NextEight(x, y) == z
    ensures Schedule(Block(), t + 8) == p + x + y + z
  {
    hide *;
    EightExtends(t);
    assert p + x + y == p + (x + y);
    EightAfter(p, x + y);
    ExtendEightIs(x, y);
    assert p + (x + y + z) == p + x + y + z;
  }

  lemma EightExtends(t: nat)
    requires 16 <= t
    ensures Schedule(Block(), t + 8) == ExtendEight(Schedule(Block(), t))
  {
    hide Block, Extend, Schedule;
    ScheduleExtends(t);
    ScheduleExtends(t + 1);
    ScheduleExtends(t + 2);
    ScheduleExtends(t + 3);
    ScheduleExtends(t + 4);
    ScheduleExtends(t + 5);
    ScheduleExtends(t + 6);
    ScheduleExtends(t + 7);
  }

  lemma FirstWords()
    ensures Schedule(Block(), 16) == W0 + W1
  {
    BlockWords();
    FirstEight();
    hide Block, WordOfBytes;
    assert Schedule(Block(), 12) == W0 + [0, 0, 0, 0];
  }

  lemma FirstEight()
    ensures Schedule(Block(), 8) == W0
  {
    BlockWords();
    hide Block, WordOfBytes;
    assert Schedule(Block(), 4) == [0x61626380, 0, 0, 0];
  }

  lemma BlockWords()
    ensures WordOfBytes(Block()[0..4]) == 0x61626380 && WordOfBytes(Block()[60..64]) == 24
    ensures forall t :: 1 <= t < 15 ==> WordOfBytes(Block()[4 * t..4 * t + 4]) == 0
  {
  }

  /** Eight words of the recurrence after `x` and `y`. */
  function NextEight(x: seq<Word>, y: seq<Word>): (z: seq<Word>)
    requires |x| == |y| == 8
    ensures |z| == 8
  {
    var z0 := Sum4(SmallSigma1(y[6]), y[1], SmallSigma0(x[1]), x[0]);
    var z1 := Sum4(SmallSigma1(y[7]), y[2], SmallSigma0(x[2]), x[1]);
    var z2 := Sum4(SmallSigma1(z0), y[3], SmallSigma0(x[3]), x[2]);
    var z3 := Sum4(SmallSigma1(z1), y[4], SmallSigma0(x[4]), x[3]);
    var z4 := Sum4(SmallSigma1(z2), y[5], SmallSigma0(x[5]), x[4]);
    var z5 := Sum4(SmallSigma1(z3), y[6], SmallSigma0(x[6]), x[5]);
    var z6 := Sum4(SmallSigma1(z4), y[7], SmallSigma0(x[7]), x[6]);
    var z7 := Sum4(SmallSigma1(z5), z0, SmallSigma0(y[0]), x[7]);
    [z0, z1, z2, z3, z4, z5, z6, z7]
  }

  lemma ExtendEightIs(x: seq<Word>, y: seq<Word>)
    requires |x| == |y| == 8
    ensures ExtendEight(x + y) == x + y + NextEight(x, y)
  {
    hide NextEight, Extend;
    FirstFour(x, y);
    LastFour(x, y);
  }

  lemma FirstFour(x: seq<Word>, y: seq<Word>)
    requires |x| == |y| == 8
    ensures
      var z, w := NextEight(x, y), x + y;
      && Extend(w) == w + z[..1]
      && Extend(w + z[..1]) == w + z[..2]
      && Extend(w + z[..2]) == w + z[..3]
      && Extend(w + z[..3]) == w + z[..4]
  {
    hide Sum4, SmallSigma0, SmallSigma1;
    var z, w := NextEight(x, y), x + y;
  }

  lemma LastFour(x: seq<Word>, y: seq<Word>)
    requires |x| == |y| == 8
    ensures
      var z, w := NextEight(x, y), x + y;
      && Extend(w + z[..4]) == w + z[..5]
      && Extend(w + z[..5]) == w + z[..6]
      && Extend(w + z[..6]) == w + z[..7]
      && Extend(w + z[..7]) == w + z
  {
    hide Sum4, SmallSigma0, SmallSigma1;
    var z, w := NextEight(x, y), x + y;
  }

  lemma Words2()
    ensures |W0| == |W1| == 8 && NextEight(W0, W1) == W2
  {
  }

  lemma Words3()
    ensures |W1| == |W2| == 8 && NextEight(W1, W2) == W3
  {
  }

  lemma Words4()
    ensures |W2| == |W3| == 8 && NextEight(W2, W3) == W4
  {
  }

  lemma Words5()
    ensures |W3| == |W4| == 8 && NextEight(W3, W4) == W5
  {
  }

  lemma Words6()
    ensures |W4| == |W5| == 8 && NextEight(W4, W5) == W6
  {
  }

  lemma Words7()
    ensures |W5| == |W6| == 8 && NextEight(W5, W6) == W7
  {
  }

  lemma AllWords()
    ensures Schedule(Block(), 64) == W0 + W1 + W2 + W3 + W4 + W5 + W6 + W7
  {
    hide *;
    FirstWords();
    assert W0 + W1 == [] + W0 + W1;
    Words2();
    EightWords(16, [], W0, W1, W2);
    assert [] + W0 + W1 + W2 == W0 + W1 + W2;
    Words3();
    EightWords(24, W0, W1, W2, W3);
    Words4();
    EightWords(32, W0 + W1, W2, W3, W4);
    Words5();
    EightWords(40, W0 + W1 + W2, W3, W4, W5);
    Words6();
    EightWords(48, W0 + W1 + W2 + W3, W4, W5, W6);
    Words7();
    EightWords(56, W0 + W1 + W2 + W3 + W4, W5, W6, W7);
  }

  // ---------- The rounds ----------

  function FourRounds(v: Working, k: seq<Word>, w: seq<Word>, i: nat): Working
    requires |k| == |w| == 8 && i + 4 <= 8
  {
    Round(Round(Round(Round(v, k[i], w[i]), k[i + 1], w[i + 1]), k[i + 2], w[i + 2]), k[i + 3], w[i + 3])
  }

  function EightRounds(v: Working, k: seq<Word>, w: seq<Word>): Working
    requires |k| == |w| == 8
  {
    FourRounds(FourRounds(v, k, w, 0), k, w, 4)
  }

  lemma Four0()
    ensures FourRounds(V0, K0, W0, 0) == V1
  {
  }

  lemma Four1()
    ensures FourRounds(V1, K0, W0, 4) == V2
  {
  }

  lemma Four2()
    ensures FourRounds(V2, K1, W1, 0) == V3
  {
  }

  lemma Four3()
    ensures FourRounds(V3, K1, W1, 4) == V4
  {
  }

  lemma Four4()
    ensures FourRounds(V4, K2, W2, 0) == V5
  {
  }

  lemma Four5()
    ensures FourRounds(V5, K2, W2, 4) == V6
  {
  }

  lemma Four6()
    ensures FourRounds(V6, K3, W3, 0) == V7
  {
  }

  lemma Four7()
    ensures FourRounds(V7, K3, W3, 4) == V8
  {
  }

  lemma Four8()
    ensures FourRounds(V8, K4, W4, 0) == V9
  {
  }

  lemma Four9()
    ensures FourRounds(V9, K4, W4, 4) == V10
  {
  }

  lemma Four10()
    ensures FourRounds(V10, K5, W5, 0) == V11
  {
  }

  lemma Four11()
    ensures FourRounds(V11, K5, W5, 4) == V12
  {
  }

  lemma Four12()
    ensures FourRounds(V12, K6, W6, 0) == V13
  {
  }

  lemma Four13()
    ensures FourRounds(V13, K6, W6, 4) == V14
  {
  }

  lemma Four14()
    ensures FourRounds(V14, K7, W7, 0) == V15
  {
  }

  lemma Four15()
    ensures FourRounds(V15, K7, W7, 4) == V16
  {
  }

  lemma Rounds0()
    ensures EightRounds(V0, K0, W0) == V2
  {
    hide FourRounds;
    Four0();
    Four1();
  }

  lemma Rounds1()
    ensures EightRounds(V2, K1, W1) == V4
  {
    hide FourRounds;
    Four2();
    Four3();
  }

  lemma Rounds2()
    ensures EightRounds(V4, K2, W2) == V6
  {
    hide FourRounds;
    Four4();
    Four5();
  }

  lemma Rounds3()
    ensures EightRounds(V6, K3, W3) == V8
  {
    hide FourRounds;
    Four6();
    Four7();
  }

  lemma Rounds4()
    ensures EightRounds(V8, K4, W4) == V10
  {
    hide FourRounds;
    Four8();
    Four9();
  }

  lemma Rounds5()
    ensures EightRounds(V10, K5, W5) == V12
  {
    hide FourRounds;
    Four10();
    Four11();
  }

  lemma Rounds6()
    ensures EightRounds(V12, K6, W6) == V14
  {
    hide FourRounds;
    Four12();
    Four13();
  }

  lemma Rounds7()
    ensures EightRounds(V14, K7, W7) == V16
  {
    hide FourRounds;
    Four14();
    Four15();
  }

  lemma EightSteps(t: nat)
    requires t <= 56 && |K| == 64 && |H0| == 8
    ensures Rounds(H0, Block(), t + 8)
         == EightRounds(Rounds(H0, Block(), t), K[t..t + 8], Schedule(Block(), 64)[t..t + 8])
  {
    hide *;
    RoundsUnfold(H0, Block(), t);
    RoundsUnfold(H0, Block(), t + 1);
    RoundsUnfold(H0, Block(), t + 2);
    RoundsUnfold(H0, Block(), t + 3);
    RoundsUnfold(H0, Block(), t + 4);
    RoundsUnfold(H0, Block(), t + 5);
    RoundsUnfold(H0, Block(), t + 6);
    RoundsUnfold(H0, Block(), t + 7);
    EightUnfold(Rounds(H0, Block(), t), K[t..t + 8], Schedule(Block(), 64)[t..t + 8]);
  }

  lemma EightUnfold(v: Working, k: seq<Word>, w: seq<Word>)
    requires |k| == |w| == 8
    ensures EightRounds(v, k, w)
         == Round(Round(Round(Round(Round(Round(Round(Round(v, k[0], w[0]), k[1], w[1]), k[2], w[2]), k[3], w[3]),
                                          k[4], w[4]), k[5], w[5]), k[6], w[6]), k[7], w[7])
  {
    hide Round;
  }

  lemma Slices(s: seq<Word>, a: seq<Word>, b: seq<Word>, c: seq<Word>, d: seq<Word>,
               e: seq<Word>, f: seq<Word>, g: seq<Word>, h: seq<Word>)
    requires |a| == |b| == |c| == |d| == |e| == |f| == |g| == |h| == 8 && s == a + b + c + d + e + f + g + h
    ensures s[0..8] == a && s[8..16] == b && s[16..24] == c && s[24..32] == d
    ensures s[32..40] == e && s[40..48] == f && s[48..56] == g && s[56..64] == h
  {
  }

  lemma KRows()
    ensures K == K0 + K1 + K2 + K3 + K4 + K5 + K6 + K7
    ensures |K0| == |K1| == |K2| == |K3| == |K4| == |K5| == |K6| == |K7| == 8
  {
  }

  lemma WRows()
    ensures |W0| == |W1| == |W2| == |W3| == |W4| == |W5| == |W6| == |W7| == 8
  {
  }

  lemma Start()
    ensures |H0| == 8 && Rounds(H0, Block(), 0) == V0
  {
  }

  lemma AllRounds()
    ensures Rounds(H0, Block(), 64) == V16
  {
    hide *;
    Start();
    KRows();
    WRows();
    AllWords();
    Slices(K, K0, K1, K2, K3, K4, K5, K6, K7);
    Slices(Schedule(Block(), 64), W0, W1, W2, W3, W4, W5, W6, W7);
    EightSteps(0);
    Rounds0();
    EightSteps(8);
    Rounds1();
    EightSteps(16);
    Rounds2();
    EightSteps(24);
    Rounds3();
    EightSteps(32);
    Rounds4();
    EightSteps(40);
    Rounds5();
    EightSteps(48);
    Rounds6();
    EightSteps(56);
    Rounds7();
  }

  // ---------- The digest ----------

  lemma Final()
    requires Rounds(H0, Block(), 64) == V16
    ensures Compress(H0, Block()) == HASH
  {
    hide Rounds, Block;
  }


  lemma WordsOut()
    ensures HASH[..4] == [0xba7816bf, 0x8f01cfea, 0x414140de, 0x5dae2223]
    ensures HASH[4..] == [0xb00361a3, 0x96177a9c, 0xb410ff61, 0xf20015ad]
    ensures BytesOfWord(0xba7816bf) == [0xba, 0x78, 0x16, 0xbf]
    ensures BytesOfWord(0x8f01cfea) == [0x8f, 0x01, 0xcf, 0xea]
    ensures BytesOfWord(0x414140de) == [0x41, 0x41, 0x40, 0xde]
    ensures BytesOfWord(0x5dae2223) == [0x5d, 0xae, 0x22, 0x23]
    ensures BytesOfWord(0xb00361a3) == [0xb0, 0x03, 0x61, 0xa3]
    ensures BytesOfWord(0x96177a9c) == [0x96, 0x17, 0x7a, 0x9c]
    ensures BytesOfWord(0xb410ff61) == [0xb4, 0x10, 0xff, 0x61]
    ensures BytesOfWord(0xf20015ad) == [0xf2, 0x00, 0x15, 0xad]
  {
  }

  lemma OutputBytes()
    ensures BytesOfWords(HASH) == DIGEST
  {
    hide BytesOfWord, BytesOfWords;
    var h := HASH;
    WordsOut();
    assert h == h[..4] + h[4..];
    BytesOfHalves(h[..4], h[4..]);
    BytesOfFour(h[0], h[1], h[2], h[3]);
    BytesOfFour(h[4], h[5], h[6], h[7]);
  }

  lemma {:induction false} BytesOfHalves(v: seq<Word>, w: seq<Word>)
    ensures BytesOfWords(v + w) == BytesOfWords(v) + BytesOfWords(w)
  {
    if v == [] {
      assert v + w == w;
    } else {
      assert (v + w)[1..] == v[1..] + w;
      BytesOfHalves(v[1..], w);
    }
  }

  lemma BytesOfFour(a: Word, b: Word, c: Word, d: Word)
    ensures BytesOfWords([a, b, c, d]) == BytesOfWord(a) + BytesOfWord(b) + BytesOfWord(c) + BytesOfWord(d)
  {
    hide *;
    assert [] + [a] == [a] && [a] + [b] == [a, b] && [a, b] + [c] == [a, b, c] && [a, b, c] + [d] == [a, b, c, d];
    NoWords();
    BytesOfWordsExtends([], a);
    BytesOfWordsExtends([a], b);
    BytesOfWordsExtends([a, b], c);
    BytesOfWordsExtends([a, b, c], d);
  }

  lemma NoWords()
    ensures BytesOfWords([]) == []
  {
  }

  /** The digest of "abc". */
  lemma DigestOfABC()
    ensures Digest(ABC) == DIGEST
  {
    hide BytesOfWords, Compress, Block, Pad;
    AllRounds();
    Final();
    Padded();
    assert Block()[..0] == [] && Block()[0..] == Block();
    assert HashBlocks([]) == H0;
    OutputBytes();
  }

}
