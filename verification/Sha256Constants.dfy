/** The constants of sections 4.2.2 and 5.3.3: the first 32 bits of the fractional parts of the cube
    roots of the first sixty-four primes, and of the square roots of the first eight. */
module Sha256Constants {
  import opened Sha256Standard

  // ---------- The first sixty-four primes ----------

  ghost predicate Divides(d: nat, n: nat) { exists q: nat :: n == d * q }

  ghost predicate IsPrime(n: nat) { 2 <= n && forall d :: 2 <= d < n ==> !Divides(d, n) }

  /** The primes below `n`, in order. */
  ghost function PrimesBelow(n: nat): seq<nat> {
    if n == 0 then [] else PrimesBelow(n - 1) + if IsPrime(n - 1) then [n - 1] else []
  }

  /** No prime to 17 divides `n`, unless it is `n`. */
  predicate Sieved(n: nat) {
    && (n % 2 != 0 || n == 2) && (n % 3 != 0 || n == 3) && (n % 5 != 0 || n == 5) && (n % 7 != 0 || n == 7)
    && (n % 11 != 0 || n == 11) && (n % 13 != 0 || n == 13) && (n % 17 != 0 || n == 17)
  }

  /** Below 19 squared a number that is not prime has a prime factor to 17. */
  lemma SieveExact(n: nat)
    requires 2 <= n < 361
    ensures Sieved(n) <==> IsPrime(n)
  {
    if !Sieved(n) {
      var p := if n % 2 == 0 && n != 2 then 2 else if n % 3 == 0 && n != 3 then 3 else
        if n % 5 == 0 && n != 5 then 5 else if n % 7 == 0 && n != 7 then 7 else
        if n % 11 == 0 && n != 11 then 11 else if n % 13 == 0 && n != 13 then 13 else 17;
      assert n == p * (n / p);
      assert p < n && Divides(p, n);
    } else {
      forall d | 2 <= d < n
        ensures !Divides(d, n)
      {
        if Divides(d, n) {
          var q: nat :| n == d * q;
          SmallFactor(n, d, q);
        }
      }
    }
  }

  lemma SmallFactor(n: nat, d: nat, q: nat)
    requires 2 <= d < n < 361 && n == d * q
    ensures !Sieved(n)
  {
    ProductAtLeast(d, q);
    if d < 19 {
      DivisorBelow19(n, d, q);
    } else {
      DivisorBelow19(n, q, d);
    }
  }

  lemma ProductAtLeast(d: nat, q: nat)
    requires 2 <= d < d * q < 361
    ensures 2 <= q && 2 * q <= d * q && (d < 19 || q < 19)
  {
    if q <= 1 {
      assert false;
    }
    if 19 <= d && 19 <= q {
      Monotone(19, d, 19, q);
      assert false;
    }
  }

  lemma Monotone(a: nat, b: nat, c: nat, d: nat)
    requires a <= b && c <= d
    ensures a * c <= b * d
  {
    assert a * c <= a * d <= b * d;
  }

  lemma DivisorBelow19(n: nat, m: nat, k: nat)
    requires 2 <= m < 19 && m < n && n == m * k
    ensures !Sieved(n)
  {
    var p := if m % 2 == 0 then 2 else if m % 3 == 0 then 3 else if m % 5 == 0 then 5 else m;
    assert p in {2, 3, 5, 7, 11, 13, 17};
    assert m == p * (m / p);
    assert n == p * (m / p * k);
    Multiple(n, p, m / p * k);
  }

  lemma Multiple(n: nat, p: nat, k: nat)
    requires n == p * k && 0 < p < n
    ensures n % p == 0
  {
    var q, r := n / p, n % p;
    assert p * (k - q) == r;
    if k > q {
      Monotone(p, p, 1, k - q);
    } else if k < q {
      Monotone(p, p, 1, q - k);
    }
  }

  /** No number from `n` to below `p` is sieved. */
  predicate Gap(n: nat, p: nat)
    decreases p - n
  {
    n >= p || (!Sieved(n) && Gap(n + 1, p))
  }

  lemma {:induction false} NextPrime(n: nat, p: nat)
    requires 2 <= n <= p < 361 && Sieved(p) && Gap(n, p)
    ensures PrimesBelow(p + 1) == PrimesBelow(n) + [p]
    decreases p - n
  {
    hide IsPrime, Sieved;
    SieveExact(n);
    if n < p {
      NextPrime(n + 1, p);
      assert PrimesBelow(n + 1) == PrimesBelow(n) + [];
    }
  }

  const P0: seq<nat> := [2, 3, 5, 7, 11, 13, 17, 19]
  const P1: seq<nat> := [23, 29, 31, 37, 41, 43, 47, 53]
  const P2: seq<nat> := [59, 61, 67, 71, 73, 79, 83, 89]
  const P3: seq<nat> := [97, 101, 103, 107, 109, 113, 127, 131]
  const P4: seq<nat> := [137, 139, 149, 151, 157, 163, 167, 173]
  const P5: seq<nat> := [179, 181, 191, 193, 197, 199, 211, 223]
  const P6: seq<nat> := [227, 229, 233, 239, 241, 251, 257, 263]
  const P7: seq<nat> := [269, 271, 277, 281, 283, 293, 307, 311]

  lemma Primes0()
    ensures PrimesBelow(8) == PrimesBelow(2) + [2, 3, 5, 7]
  {
    hide PrimesBelow;
    NextPrime(2, 2);
    NextPrime(3, 3);
    NextPrime(4, 5);
    NextPrime(6, 7);
  }

  lemma Primes1()
    ensures PrimesBelow(20) == PrimesBelow(8) + [11, 13, 17, 19]
  {
    hide PrimesBelow;
    NextPrime(8, 11);
    NextPrime(12, 13);
    NextPrime(14, 17);
    NextPrime(18, 19);
  }

  lemma Primes2()
    ensures PrimesBelow(38) == PrimesBelow(20) + [23, 29, 31, 37]
  {
    hide PrimesBelow;
    NextPrime(20, 23);
    assert Gap(25, 29);
    NextPrime(24, 29);
    NextPrime(30, 31);
    assert Gap(33, 37);
    NextPrime(32, 37);
  }

  lemma Primes3()
    ensures PrimesBelow(54) == PrimesBelow(38) + [41, 43, 47, 53]
  {
    hide PrimesBelow;
    NextPrime(38, 41);
    NextPrime(42, 43);
    NextPrime(44, 47);
    assert Gap(49, 53);
    NextPrime(48, 53);
  }

  lemma Primes4()
    ensures PrimesBelow(72) == PrimesBelow(54) + [59, 61, 67, 71]
  {
    hide PrimesBelow;
    assert Gap(55, 59);
    NextPrime(54, 59);
    NextPrime(60, 61);
    assert Gap(63, 67);
    NextPrime(62, 67);
    NextPrime(68, 71);
  }

  lemma Primes5()
    ensures PrimesBelow(90) == PrimesBelow(72) + [73, 79, 83, 89]
  {
    hide PrimesBelow;
    NextPrime(72, 73);
    assert Gap(75, 79);
    NextPrime(74, 79);
    NextPrime(80, 83);
    assert Gap(85, 89);
    NextPrime(84, 89);
  }

  lemma Primes6()
    ensures PrimesBelow(108) == PrimesBelow(90) + [97, 101, 103, 107]
  {
    hide PrimesBelow;
    assert Gap(93, 97);
    NextPrime(90, 97);
    NextPrime(98, 101);
    NextPrime(102, 103);
    NextPrime(104, 107);
  }

  lemma Primes7()
    ensures PrimesBelow(132) == PrimesBelow(108) + [109, 113, 127, 131]
  {
    hide PrimesBelow;
    NextPrime(108, 109);
    NextPrime(110, 113);
    assert Gap(123, 127) && Gap(119, 127) && Gap(115, 127);
    NextPrime(114, 127);
    NextPrime(128, 131);
  }

  lemma Primes8()
    ensures PrimesBelow(152) == PrimesBelow(132) + [137, 139, 149, 151]
  {
    hide PrimesBelow;
    assert Gap(133, 137);
    NextPrime(132, 137);
    NextPrime(138, 139);
    assert Gap(145, 149) && Gap(141, 149);
    NextPrime(140, 149);
    NextPrime(150, 151);
  }

  lemma Primes9()
    ensures PrimesBelow(174) == PrimesBelow(152) + [157, 163, 167, 173]
  {
    hide PrimesBelow;
    assert Gap(153, 157);
    NextPrime(152, 157);
    assert Gap(159, 163);
    NextPrime(158, 163);
    NextPrime(164, 167);
    assert Gap(169, 173);
    NextPrime(168, 173);
  }

  lemma Primes10()
    ensures PrimesBelow(194) == PrimesBelow(174) + [179, 181, 191, 193]
  {
    hide PrimesBelow;
    assert Gap(175, 179);
    NextPrime(174, 179);
    NextPrime(180, 181);
    assert Gap(187, 191) && Gap(183, 191);
    NextPrime(182, 191);
    NextPrime(192, 193);
  }

  lemma Primes11()
    ensures PrimesBelow(224) == PrimesBelow(194) + [197, 199, 211, 223]
  {
    hide PrimesBelow;
    NextPrime(194, 197);
    NextPrime(198, 199);
    assert Gap(207, 211) && Gap(203, 211);
    NextPrime(200, 211);
    assert Gap(219, 223) && Gap(215, 223);
    NextPrime(212, 223);
  }

  lemma Primes12()
    ensures PrimesBelow(240) == PrimesBelow(224) + [227, 229, 233, 239]
  {
    hide PrimesBelow;
    NextPrime(224, 227);
    NextPrime(228, 229);
    NextPrime(230, 233);
    assert Gap(235, 239);
    NextPrime(234, 239);
  }

  lemma Primes13()
    ensures PrimesBelow(264) == PrimesBelow(240) + [241, 251, 257, 263]
  {
    hide PrimesBelow;
    NextPrime(240, 241);
    assert Gap(247, 251) && Gap(243, 251);
    NextPrime(242, 251);
    assert Gap(253, 257);
    NextPrime(252, 257);
    assert Gap(259, 263);
    NextPrime(258, 263);
  }

  lemma Primes14()
    ensures PrimesBelow(282) == PrimesBelow(264) + [269, 271, 277, 281]
  {
    hide PrimesBelow;
    assert Gap(265, 269);
    NextPrime(264, 269);
    NextPrime(270, 271);
    assert Gap(273, 277);
    NextPrime(272, 277);
    NextPrime(278, 281);
  }

  lemma Primes15()
    ensures PrimesBelow(312) == PrimesBelow(282) + [283, 293, 307, 311]
  {
    hide PrimesBelow;
    NextPrime(282, 283);
    assert Gap(289, 293) && Gap(285, 293);
    NextPrime(284, 293);
    assert Gap(303, 307) && Gap(299, 307) && Gap(295, 307);
    NextPrime(294, 307);
    NextPrime(308, 311);
  }

  lemma Row0()
    ensures PrimesBelow(20) == PrimesBelow(2) + P0
  {
    hide PrimesBelow;
    Primes0();
    Primes1();
  }

  lemma Row1()
    ensures PrimesBelow(54) == PrimesBelow(20) + P1
  {
    hide PrimesBelow;
    Primes2();
    Primes3();
  }

  lemma Row2()
    ensures PrimesBelow(90) == PrimesBelow(54) + P2
  {
    hide PrimesBelow;
    Primes4();
    Primes5();
  }

  lemma Row3()
    ensures PrimesBelow(132) == PrimesBelow(90) + P3
  {
    hide PrimesBelow;
    Primes6();
    Primes7();
  }

  lemma Row4()
    ensures PrimesBelow(174) == PrimesBelow(132) + P4
  {
    hide PrimesBelow;
    Primes8();
    Primes9();
  }

  lemma Row5()
    ensures PrimesBelow(224) == PrimesBelow(174) + P5
  {
    hide PrimesBelow;
    Primes10();
    Primes11();
  }

  lemma Row6()
    ensures PrimesBelow(264) == PrimesBelow(224) + P6
  {
    hide PrimesBelow;
    Primes12();
    Primes13();
  }

  lemma Row7()
    ensures PrimesBelow(312) == PrimesBelow(264) + P7
  {
    hide PrimesBelow;
    Primes14();
    Primes15();
  }

  /** Sixty-four primes come before 312: the rows above, in order. */
  lemma FirstPrimes()
    ensures PrimesBelow(312) == P0 + P1 + P2 + P3 + P4 + P5 + P6 + P7
  {
    hide *;
    NoneBelowTwo();
    Row0();
    Row1();
    Row2();
    Row3();
    Row4();
    Row5();
    Row6();
    Row7();
    assert [] + P0 == P0;
  }

  lemma NoneBelowTwo()
    ensures PrimesBelow(2) == []
  {
    assert PrimesBelow(1) == PrimesBelow(0);
  }

  // ---------- The roots ----------

  /** `w` holds the first 32 bits of the fraction of the cube root of `p`: `c` is the root of
      `p` times 2^96, which is 2^32 times that of `p`, rounded down. */
  ghost predicate CubeRootFraction(w: Word, p: nat) {
    exists c: nat :: CubeRootFloor(c, p * 0x1_0000_0000_0000_0000_0000_0000) && w as int == c % 0x1_0000_0000
  }

  ghost predicate CubeRootFloor(c: nat, x: nat) { c * c * c <= x < (c + 1) * (c + 1) * (c + 1) }

  /** The same of the square root: `c` is the root of `p` times 2^64, rounded down. */
  ghost predicate SquareRootFraction(w: Word, p: nat) {
    exists c: nat :: SquareRootFloor(c, p * 0x1_0000_0000_0000_0000) && w as int == c % 0x1_0000_0000
  }

  ghost predicate SquareRootFloor(c: nat, x: nat) { c * c <= x < (c + 1) * (c + 1) }

  lemma CubeRoot(w: Word, p: nat, c: nat)
    requires CubeRootFloor(c, p * 0x1_0000_0000_0000_0000_0000_0000) && w as int == c % 0x1_0000_0000
    ensures CubeRootFraction(w, p)
  {
  }

  lemma SquareRoot(w: Word, p: nat, c: nat)
    requires SquareRootFloor(c, p * 0x1_0000_0000_0000_0000) && w as int == c % 0x1_0000_0000
    ensures SquareRootFraction(w, p)
  {
  }

  ghost predicate CubeRoots(ws: seq<Word>, ps: seq<nat>) {
    |ws| == |ps| && forall i :: 0 <= i < |ws| ==> CubeRootFraction(ws[i], ps[i])
  }

  lemma CubeRoots0()
    ensures CubeRoots(K0, P0)
  {
    hide CubeRootFraction;
    CubeRoot(K0[0], P0[0], 0x1428a2f98);
    CubeRoot(K0[1], P0[1], 0x171374491);
    CubeRoot(K0[2], P0[2], 0x1b5c0fbcf);
    CubeRoot(K0[3], P0[3], 0x1e9b5dba5);
    CubeRoot(K0[4], P0[4], 0x23956c25b);
    CubeRoot(K0[5], P0[5], 0x259f111f1);
    CubeRoot(K0[6], P0[6], 0x2923f82a4);
    CubeRoot(K0[7], P0[7], 0x2ab1c5ed5);
  }

  lemma CubeRoots1()
    ensures CubeRoots(K1, P1)
  {
    hide CubeRootFraction;
    CubeRoot(K1[0], P1[0], 0x2d807aa98);
    CubeRoot(K1[1], P1[1], 0x312835b01);
    CubeRoot(K1[2], P1[2], 0x3243185be);
    CubeRoot(K1[3], P1[3], 0x3550c7dc3);
    CubeRoot(K1[4], P1[4], 0x372be5d74);
    CubeRoot(K1[5], P1[5], 0x380deb1fe);
    CubeRoot(K1[6], P1[6], 0x39bdc06a7);
    CubeRoot(K1[7], P1[7], 0x3c19bf174);
  }

  lemma CubeRoots2()
    ensures CubeRoots(K2, P2)
  {
    hide CubeRootFraction;
    CubeRoot(K2[0], P2[0], 0x3e49b69c1);
    CubeRoot(K2[1], P2[1], 0x3efbe4786);
    CubeRoot(K2[2], P2[2], 0x40fc19dc6);
    CubeRoot(K2[3], P2[3], 0x4240ca1cc);
    CubeRoot(K2[4], P2[4], 0x42de92c6f);
    CubeRoot(K2[5], P2[5], 0x44a7484aa);
    CubeRoot(K2[6], P2[6], 0x45cb0a9dc);
    CubeRoot(K2[7], P2[7], 0x476f988da);
  }

  lemma CubeRoots3()
    ensures CubeRoots(K3, P3)
  {
    hide CubeRootFraction;
    CubeRoot(K3[0], P3[0], 0x4983e5152);
    CubeRoot(K3[1], P3[1], 0x4a831c66d);
    CubeRoot(K3[2], P3[2], 0x4b00327c8);
    CubeRoot(K3[3], P3[3], 0x4bf597fc7);
    CubeRoot(K3[4], P3[4], 0x4c6e00bf3);
    CubeRoot(K3[5], P3[5], 0x4d5a79147);
    CubeRoot(K3[6], P3[6], 0x506ca6351);
    CubeRoot(K3[7], P3[7], 0x514292967);
  }

  lemma CubeRoots4()
    ensures CubeRoots(K4, P4)
  {
    hide CubeRootFraction;
    CubeRoot(K4[0], P4[0], 0x527b70a85);
    CubeRoot(K4[1], P4[1], 0x52e1b2138);
    CubeRoot(K4[2], P4[2], 0x54d2c6dfc);
    CubeRoot(K4[3], P4[3], 0x553380d13);
    CubeRoot(K4[4], P4[4], 0x5650a7354);
    CubeRoot(K4[5], P4[5], 0x5766a0abb);
    CubeRoot(K4[6], P4[6], 0x581c2c92e);
    CubeRoot(K4[7], P4[7], 0x592722c85);
  }

  lemma CubeRoots5()
    ensures CubeRoots(K5, P5)
  {
    hide CubeRootFraction;
    CubeRoot(K5[0], P5[0], 0x5a2bfe8a1);
    CubeRoot(K5[1], P5[1], 0x5a81a664b);
    CubeRoot(K5[2], P5[2], 0x5c24b8b70);
    CubeRoot(K5[3], P5[3], 0x5c76c51a3);
    CubeRoot(K5[4], P5[4], 0x5d192e819);
    CubeRoot(K5[5], P5[5], 0x5d6990624);
    CubeRoot(K5[6], P5[6], 0x5f40e3585);
    CubeRoot(K5[7], P5[7], 0x6106aa070);
  }

  lemma CubeRoots6()
    ensures CubeRoots(K6, P6)
  {
    hide CubeRootFraction;
    CubeRoot(K6[0], P6[0], 0x619a4c116);
    CubeRoot(K6[1], P6[1], 0x61e376c08);
    CubeRoot(K6[2], P6[2], 0x62748774c);
    CubeRoot(K6[3], P6[3], 0x634b0bcb5);
    CubeRoot(K6[4], P6[4], 0x6391c0cb3);
    CubeRoot(K6[5], P6[5], 0x64ed8aa4a);
    CubeRoot(K6[6], P6[6], 0x65b9cca4f);
    CubeRoot(K6[7], P6[7], 0x6682e6ff3);
  }

  lemma CubeRoots7()
    ensures CubeRoots(K7, P7)
  {
    hide CubeRootFraction;
    CubeRoot(K7[0], P7[0], 0x6748f82ee);
    CubeRoot(K7[1], P7[1], 0x678a5636f);
    CubeRoot(K7[2], P7[2], 0x684c87814);
    CubeRoot(K7[3], P7[3], 0x68cc70208);
    CubeRoot(K7[4], P7[4], 0x690befffa);
    CubeRoot(K7[5], P7[5], 0x6a4506ceb);
    CubeRoot(K7[6], P7[6], 0x6bef9a3f7);
    CubeRoot(K7[7], P7[7], 0x6c67178f2);
  }

  lemma JoinRoots(v: seq<Word>, p: seq<nat>, w: seq<Word>, q: seq<nat>)
    requires CubeRoots(v, p) && CubeRoots(w, q)
    ensures CubeRoots(v + w, p + q)
  {
  }

  /** The round constants are the fractions of the cube roots of the first sixty-four primes, in order. */
  lemma RoundConstants()
    ensures |K| == |PrimesBelow(312)| == 64
    ensures forall i :: 0 <= i < 64 ==> CubeRootFraction(K[i], PrimesBelow(312)[i])
  {
    SixtyFour();
    hide *;
    FirstPrimes();
    CubeRoots0();
    CubeRoots1();
    CubeRoots2();
    CubeRoots3();
    CubeRoots4();
    CubeRoots5();
    CubeRoots6();
    CubeRoots7();
    JoinRoots(K0, P0, K1, P1);
    JoinRoots(K0 + K1, P0 + P1, K2, P2);
    JoinRoots(K0 + K1 + K2, P0 + P1 + P2, K3, P3);
    JoinRoots(K0 + K1 + K2 + K3, P0 + P1 + P2 + P3, K4, P4);
    JoinRoots(K0 + K1 + K2 + K3 + K4, P0 + P1 + P2 + P3 + P4, K5, P5);
    JoinRoots(K0 + K1 + K2 + K3 + K4 + K5, P0 + P1 + P2 + P3 + P4 + P5, K6, P6);
    JoinRoots(K0 + K1 + K2 + K3 + K4 + K5 + K6, P0 + P1 + P2 + P3 + P4 + P5 + P6, K7, P7);
    RootsAt(K, PrimesBelow(312));
  }

  lemma SixtyFour()
    ensures |K| == 64 && K == K0 + K1 + K2 + K3 + K4 + K5 + K6 + K7
  {
  }

  lemma RootsAt(ws: seq<Word>, ps: seq<nat>)
    requires CubeRoots(ws, ps)
    ensures |ws| == |ps| && forall i :: 0 <= i < |ws| ==> CubeRootFraction(ws[i], ps[i])
  {
  }

  /** The initial hash value holds the fractions of the square roots of the first eight. */
  lemma InitialHash()
    ensures |H0| == 8 <= |PrimesBelow(312)|
    ensures forall i :: 0 <= i < 8 ==> SquareRootFraction(H0[i], PrimesBelow(312)[i])
  {
    hide PrimesBelow, SquareRootFraction;
    FirstPrimes();
    assert PrimesBelow(312)[..8] == P0;
    SquareRoot(H0[0], P0[0], 0x16a09e667);
    SquareRoot(H0[1], P0[1], 0x1bb67ae85);
    SquareRoot(H0[2], P0[2], 0x23c6ef372);
    SquareRoot(H0[3], P0[3], 0x2a54ff53a);
    SquareRoot(H0[4], P0[4], 0x3510e527f);
    SquareRoot(H0[5], P0[5], 0x39b05688c);
    SquareRoot(H0[6], P0[6], 0x41f83d9ab);
    SquareRoot(H0[7], P0[7], 0x45be0cd19);
  }

  // ---------- Bit by bit ----------

  /** Under any mask: `y` where `x` has ones, `z` where it has none. */
  lemma ChChooses(x: Word, y: Word, z: Word, m: Word)
    ensures x & m == m ==> Ch(x, y, z) & m == y & m
    ensures x & m == 0 ==> Ch(x, y, z) & m == z & m
  {
  }

  /** Under any mask: what two of the three agree on; on any one bit, two of them do. */
  lemma MajIsMajority(x: Word, y: Word, z: Word, m: Word)
    ensures x & m == y & m || x & m == z & m ==> Maj(x, y, z) & m == x & m
    ensures y & m == z & m ==> Maj(x, y, z) & m == y & m
  {
  }

  /** A byte is the number its bits spell, most significant first. */
  lemma ByteIsNumber(b: seq<bool>)
    requires |b| == 8
    ensures ByteOfBits(b) as int
         == (if b[0] then 128 else 0) + (if b[1] then 64 else 0) + (if b[2] then 32 else 0) + (if b[3] then 16 else 0)
          + (if b[4] then 8 else 0) + (if b[5] then 4 else 0) + (if b[6] then 2 else 0) + (if b[7] then 1 else 0)
  {
  }
}
