/**
 * The fixed ingredients of SHA-256 as FIPS 180-4 defines them and as the
 * digest engine spells them: 32-bit words, the six logical functions of
 * section 4.1.2, the 64 round constants of section 4.2.2 and the initial hash
 * value of section 5.3.3.
 *
 * Words are `bv32`, so `+` is addition modulo 2^32 (Rust's `wrapping_add`),
 * `RotateRight` is `u32::rotate_right` and `>>` is the logical shift of `u32`.
 */
module ShaFunctions {

  type Word = bv32
  type Byte = bv8

  /** Addition modulo 2^32 (`u32::wrapping_add`). */
  function Add(x: Word, y: Word): Word
  {
    x + y
  }

  /** Ch (the Rust `ch`). */
  function Ch(x: Word, y: Word, z: Word): Word
  {
    (x & y) ^ (!x & z)
  }

  /** Maj (the Rust `maj`). */
  function Maj(x: Word, y: Word, z: Word): Word
  {
    (x & y) ^ (x & z) ^ (y & z)
  }

  /** Σ0 (the Rust `sigma0u`). */
  function BigSigma0(x: Word): Word
  {
    x.RotateRight(2) ^ x.RotateRight(13) ^ x.RotateRight(22)
  }

  /** Σ1 (the Rust `sigma1u`). */
  function BigSigma1(x: Word): Word
  {
    x.RotateRight(6) ^ x.RotateRight(11) ^ x.RotateRight(25)
  }

  /** σ0 (the Rust `sigma0l`). */
  function SmallSigma0(x: Word): Word
  {
    x.RotateRight(7) ^ x.RotateRight(18) ^ (x >> 3)
  }

  /** σ1 (the Rust `sigma1l`). */
  function SmallSigma1(x: Word): Word
  {
    x.RotateRight(17) ^ x.RotateRight(19) ^ (x >> 10)
  }

  /**
   * Ch chooses: every bit of the result comes from `y` where `x` has a one
   * and from `z` where `x` has a zero.
   */
  lemma ChChooses(x: Word, y: Word, z: Word)
    ensures Ch(x, y, z) & x == y & x
    ensures Ch(x, y, z) & !x == z & !x
  {
  }

  /**
   * Maj votes: every bit of the result is set exactly when at least two of
   * the three input bits are set.
   */
  lemma MajIsMajority(x: Word, y: Word, z: Word)
    ensures Maj(x, y, z) == (x & y) | (x & z) | (y & z)
  {
  }

  /**
   * Σ0 with each ROTR^n(x) written (x >> n) | (x << (32 - n)), as section
   * 3.2 of FIPS 180-4 defines rotation.
   */
  lemma BigSigma0IsRotations(x: Word)
    ensures BigSigma0(x) == ((x >> 2) | (x << 30)) ^ ((x >> 13) | (x << 19)) ^ ((x >> 22) | (x << 10))
  {
  }

  /** Σ1 in terms of the FIPS 180-4 definition of ROTR. */
  lemma BigSigma1IsRotations(x: Word)
    ensures BigSigma1(x) == ((x >> 6) | (x << 26)) ^ ((x >> 11) | (x << 21)) ^ ((x >> 25) | (x << 7))
  {
  }

  /** σ0 in terms of the FIPS 180-4 definitions of ROTR and SHR. */
  lemma SmallSigma0IsRotations(x: Word)
    ensures SmallSigma0(x) == ((x >> 7) | (x << 25)) ^ ((x >> 18) | (x << 14)) ^ (x >> 3)
  {
  }

  /** σ1 in terms of the FIPS 180-4 definitions of ROTR and SHR. */
  lemma SmallSigma1IsRotations(x: Word)
    ensures SmallSigma1(x) == ((x >> 17) | (x << 15)) ^ ((x >> 19) | (x << 13)) ^ (x >> 10)
  {
  }

  /** The round constants K0..K63. */
  const K: seq<Word> :=
    [0x428a2f98, 0x71374491, 0xb5c0fbcf, 0xe9b5dba5, 0x3956c25b, 0x59f111f1, 0x923f82a4, 0xab1c5ed5] +
    [0xd807aa98, 0x12835b01, 0x243185be, 0x550c7dc3, 0x72be5d74, 0x80deb1fe, 0x9bdc06a7, 0xc19bf174] +
    [0xe49b69c1, 0xefbe4786, 0x0fc19dc6, 0x240ca1cc, 0x2de92c6f, 0x4a7484aa, 0x5cb0a9dc, 0x76f988da] +
    [0x983e5152, 0xa831c66d, 0xb00327c8, 0xbf597fc7, 0xc6e00bf3, 0xd5a79147, 0x06ca6351, 0x14292967] +
    [0x27b70a85, 0x2e1b2138, 0x4d2c6dfc, 0x53380d13, 0x650a7354, 0x766a0abb, 0x81c2c92e, 0x92722c85] +
    [0xa2bfe8a1, 0xa81a664b, 0xc24b8b70, 0xc76c51a3, 0xd192e819, 0xd6990624, 0xf40e3585, 0x106aa070] +
    [0x19a4c116, 0x1e376c08, 0x2748774c, 0x34b0bcb5, 0x391c0cb3, 0x4ed8aa4a, 0x5b9cca4f, 0x682e6ff3] +
    [0x748f82ee, 0x78a5636f, 0x84c87814, 0x8cc70208, 0x90befffa, 0xa4506ceb, 0xbef9a3f7, 0xc67178f2]

  /** The initial hash value H(0). */
  const H0: seq<Word> := [
    0x6a09e667, 0xbb67ae85, 0x3c6ef372, 0xa54ff53a, 0x510e527f, 0x9b05688c, 0x1f83d9ab, 0x5be0cd19
  ]

  /** The first 64 prime numbers, from which both constant tables derive. */
  const FirstPrimes: seq<nat> :=
    [2, 3, 5, 7, 11, 13, 17, 19, 23, 29, 31, 37, 41, 43, 47, 53] +
    [59, 61, 67, 71, 73, 79, 83, 89, 97, 101, 103, 107, 109, 113, 127, 131] +
    [137, 139, 149, 151, 157, 163, 167, 173, 179, 181, 191, 193, 197, 199, 211, 223] +
    [227, 229, 233, 239, 241, 251, 257, 263, 269, 271, 277, 281, 283, 293, 307, 311]

  const TwoTo32: nat := 0x1_0000_0000

  /**
   * `w` is the first 32 bits of the fractional part of the square root of
   * `p`: for the integer part `n`, the number `n * 2^32 + w` is the integer
   * square root of `p * 2^64`.
   */
  ghost predicate SqrtFraction(p: nat, n: nat, w: Word)
  {
    var c := n * TwoTo32 + w as int;
    c * c <= p * TwoTo32 * TwoTo32 < (c + 1) * (c + 1)
  }

  /**
   * `w` is the first 32 bits of the fractional part of the cube root of `p`:
   * for the integer part `n`, `n * 2^32 + w` is the integer cube root of
   * `p * 2^96`.
   */
  ghost predicate CbrtFraction(p: nat, n: nat, w: Word)
  {
    var c := n * TwoTo32 + w as int;
    c * c * c <= p * TwoTo32 * TwoTo32 * TwoTo32 < (c + 1) * (c + 1) * (c + 1)
  }

  /** The integer part of the cube root of each of the first 64 primes. */
  const CbrtIntegerParts: seq<nat> :=
    [1, 1, 1, 1, 2, 2, 2, 2, 2, 3, 3, 3, 3, 3, 3, 3] +
    [3, 3, 4, 4, 4, 4, 4, 4, 4, 4, 4, 4, 4, 4, 5, 5] +
    [5, 5, 5, 5, 5, 5, 5, 5, 5, 5, 5, 5, 5, 5, 5, 6] +
    [6, 6, 6, 6, 6, 6, 6, 6, 6, 6, 6, 6, 6, 6, 6, 6]

  /** The integer part of the square root of each of the first eight primes. */
  const SqrtIntegerParts: seq<nat> := [1, 1, 2, 2, 3, 3, 4, 4]

  /**
   * H(0) is the first 32 bits of the fractional parts of the square roots of
   * the first eight primes (section 5.3.3 of FIPS 180-4).
   */
  lemma InitialHashFromSquareRoots()
    ensures |H0| == 8
    ensures forall i :: 0 <= i < 8 ==> SqrtFraction(FirstPrimes[i], SqrtIntegerParts[i], H0[i])
  {
    assert SqrtFraction(FirstPrimes[0], SqrtIntegerParts[0], H0[0]);
    assert SqrtFraction(FirstPrimes[1], SqrtIntegerParts[1], H0[1]);
    assert SqrtFraction(FirstPrimes[2], SqrtIntegerParts[2], H0[2]);
    assert SqrtFraction(FirstPrimes[3], SqrtIntegerParts[3], H0[3]);
    assert SqrtFraction(FirstPrimes[4], SqrtIntegerParts[4], H0[4]);
    assert SqrtFraction(FirstPrimes[5], SqrtIntegerParts[5], H0[5]);
    assert SqrtFraction(FirstPrimes[6], SqrtIntegerParts[6], H0[6]);
    assert SqrtFraction(FirstPrimes[7], SqrtIntegerParts[7], H0[7]);
  }

  /**
   * K0..K63 are the first 32 bits of the fractional parts of the cube roots
   * of the first 64 primes (section 4.2.2 of FIPS 180-4).
   */
  lemma RoundConstantsFromCubeRoots()
    ensures |K| == 64
    ensures forall i :: 0 <= i < 64 ==> CbrtFraction(FirstPrimes[i], CbrtIntegerParts[i], K[i])
  {
    RoundConstantsFromCubeRoots0();
    RoundConstantsFromCubeRoots1();
    RoundConstantsFromCubeRoots2();
    RoundConstantsFromCubeRoots3();
    RoundConstantsFromCubeRoots4();
    RoundConstantsFromCubeRoots5();
    RoundConstantsFromCubeRoots6();
    RoundConstantsFromCubeRoots7();
    RoundConstantsFromCubeRoots8();
    RoundConstantsFromCubeRoots9();
    RoundConstantsFromCubeRoots10();
    RoundConstantsFromCubeRoots11();
    RoundConstantsFromCubeRoots12();
    RoundConstantsFromCubeRoots13();
    RoundConstantsFromCubeRoots14();
    RoundConstantsFromCubeRoots15();
    RoundConstantsFromCubeRoots16();
    RoundConstantsFromCubeRoots17();
    RoundConstantsFromCubeRoots18();
    RoundConstantsFromCubeRoots19();
    RoundConstantsFromCubeRoots20();
    RoundConstantsFromCubeRoots21();
    RoundConstantsFromCubeRoots22();
    RoundConstantsFromCubeRoots23();
    RoundConstantsFromCubeRoots24();
    RoundConstantsFromCubeRoots25();
    RoundConstantsFromCubeRoots26();
    RoundConstantsFromCubeRoots27();
    RoundConstantsFromCubeRoots28();
    RoundConstantsFromCubeRoots29();
    RoundConstantsFromCubeRoots30();
    RoundConstantsFromCubeRoots31();
  }

  // The cube-root check, two constants at a time.

  lemma RoundConstantsFromCubeRoots0()
    ensures forall i :: 0 <= i < 2 ==> CbrtFraction(FirstPrimes[i], CbrtIntegerParts[i], K[i])
  {
    assert FirstPrimes[0] == 2 && CbrtIntegerParts[0] == 1 && K[0] == 0x428a2f98;
    assert CbrtFraction(2, 1, 0x428a2f98);
    assert FirstPrimes[1] == 3 && CbrtIntegerParts[1] == 1 && K[1] == 0x71374491;
    assert CbrtFraction(3, 1, 0x71374491);
  }

  lemma RoundConstantsFromCubeRoots1()
    ensures forall i :: 2 <= i < 4 ==> CbrtFraction(FirstPrimes[i], CbrtIntegerParts[i], K[i])
  {
    assert FirstPrimes[2] == 5 && CbrtIntegerParts[2] == 1 && K[2] == 0xb5c0fbcf;
    assert CbrtFraction(5, 1, 0xb5c0fbcf);
    assert FirstPrimes[3] == 7 && CbrtIntegerParts[3] == 1 && K[3] == 0xe9b5dba5;
    assert CbrtFraction(7, 1, 0xe9b5dba5);
  }

  lemma RoundConstantsFromCubeRoots2()
    ensures forall i :: 4 <= i < 6 ==> CbrtFraction(FirstPrimes[i], CbrtIntegerParts[i], K[i])
  {
    assert FirstPrimes[4] == 11 && CbrtIntegerParts[4] == 2 && K[4] == 0x3956c25b;
    assert CbrtFraction(11, 2, 0x3956c25b);
    assert FirstPrimes[5] == 13 && CbrtIntegerParts[5] == 2 && K[5] == 0x59f111f1;
    assert CbrtFraction(13, 2, 0x59f111f1);
  }

  lemma RoundConstantsFromCubeRoots3()
    ensures forall i :: 6 <= i < 8 ==> CbrtFraction(FirstPrimes[i], CbrtIntegerParts[i], K[i])
  {
    assert FirstPrimes[6] == 17 && CbrtIntegerParts[6] == 2 && K[6] == 0x923f82a4;
    assert CbrtFraction(17, 2, 0x923f82a4);
    assert FirstPrimes[7] == 19 && CbrtIntegerParts[7] == 2 && K[7] == 0xab1c5ed5;
    assert CbrtFraction(19, 2, 0xab1c5ed5);
  }

  lemma RoundConstantsFromCubeRoots4()
    ensures forall i :: 8 <= i < 10 ==> CbrtFraction(FirstPrimes[i], CbrtIntegerParts[i], K[i])
  {
    assert FirstPrimes[8] == 23 && CbrtIntegerParts[8] == 2 && K[8] == 0xd807aa98;
    assert CbrtFraction(23, 2, 0xd807aa98);
    assert FirstPrimes[9] == 29 && CbrtIntegerParts[9] == 3 && K[9] == 0x12835b01;
    assert CbrtFraction(29, 3, 0x12835b01);
  }

  lemma RoundConstantsFromCubeRoots5()
    ensures forall i :: 10 <= i < 12 ==> CbrtFraction(FirstPrimes[i], CbrtIntegerParts[i], K[i])
  {
    assert FirstPrimes[10] == 31 && CbrtIntegerParts[10] == 3 && K[10] == 0x243185be;
    assert CbrtFraction(31, 3, 0x243185be);
    assert FirstPrimes[11] == 37 && CbrtIntegerParts[11] == 3 && K[11] == 0x550c7dc3;
    assert CbrtFraction(37, 3, 0x550c7dc3);
  }

  lemma RoundConstantsFromCubeRoots6()
    ensures forall i :: 12 <= i < 14 ==> CbrtFraction(FirstPrimes[i], CbrtIntegerParts[i], K[i])
  {
    assert FirstPrimes[12] == 41 && CbrtIntegerParts[12] == 3 && K[12] == 0x72be5d74;
    assert CbrtFraction(41, 3, 0x72be5d74);
    assert FirstPrimes[13] == 43 && CbrtIntegerParts[13] == 3 && K[13] == 0x80deb1fe;
    assert CbrtFraction(43, 3, 0x80deb1fe);
  }

  lemma RoundConstantsFromCubeRoots7()
    ensures forall i :: 14 <= i < 16 ==> CbrtFraction(FirstPrimes[i], CbrtIntegerParts[i], K[i])
  {
    assert FirstPrimes[14] == 47 && CbrtIntegerParts[14] == 3 && K[14] == 0x9bdc06a7;
    assert CbrtFraction(47, 3, 0x9bdc06a7);
    assert FirstPrimes[15] == 53 && CbrtIntegerParts[15] == 3 && K[15] == 0xc19bf174;
    assert CbrtFraction(53, 3, 0xc19bf174);
  }

  lemma RoundConstantsFromCubeRoots8()
    ensures forall i :: 16 <= i < 18 ==> CbrtFraction(FirstPrimes[i], CbrtIntegerParts[i], K[i])
  {
    assert FirstPrimes[16] == 59 && CbrtIntegerParts[16] == 3 && K[16] == 0xe49b69c1;
    assert CbrtFraction(59, 3, 0xe49b69c1);
    assert FirstPrimes[17] == 61 && CbrtIntegerParts[17] == 3 && K[17] == 0xefbe4786;
    assert CbrtFraction(61, 3, 0xefbe4786);
  }

  lemma RoundConstantsFromCubeRoots9()
    ensures forall i :: 18 <= i < 20 ==> CbrtFraction(FirstPrimes[i], CbrtIntegerParts[i], K[i])
  {
    assert FirstPrimes[18] == 67 && CbrtIntegerParts[18] == 4 && K[18] == 0x0fc19dc6;
    assert CbrtFraction(67, 4, 0x0fc19dc6);
    assert FirstPrimes[19] == 71 && CbrtIntegerParts[19] == 4 && K[19] == 0x240ca1cc;
    assert CbrtFraction(71, 4, 0x240ca1cc);
  }

  lemma RoundConstantsFromCubeRoots10()
    ensures forall i :: 20 <= i < 22 ==> CbrtFraction(FirstPrimes[i], CbrtIntegerParts[i], K[i])
  {
    assert FirstPrimes[20] == 73 && CbrtIntegerParts[20] == 4 && K[20] == 0x2de92c6f;
    assert CbrtFraction(73, 4, 0x2de92c6f);
    assert FirstPrimes[21] == 79 && CbrtIntegerParts[21] == 4 && K[21] == 0x4a7484aa;
    assert CbrtFraction(79, 4, 0x4a7484aa);
  }

  lemma RoundConstantsFromCubeRoots11()
    ensures forall i :: 22 <= i < 24 ==> CbrtFraction(FirstPrimes[i], CbrtIntegerParts[i], K[i])
  {
    assert FirstPrimes[22] == 83 && CbrtIntegerParts[22] == 4 && K[22] == 0x5cb0a9dc;
    assert CbrtFraction(83, 4, 0x5cb0a9dc);
    assert FirstPrimes[23] == 89 && CbrtIntegerParts[23] == 4 && K[23] == 0x76f988da;
    assert CbrtFraction(89, 4, 0x76f988da);
  }

  lemma RoundConstantsFromCubeRoots12()
    ensures forall i :: 24 <= i < 26 ==> CbrtFraction(FirstPrimes[i], CbrtIntegerParts[i], K[i])
  {
    assert FirstPrimes[24] == 97 && CbrtIntegerParts[24] == 4 && K[24] == 0x983e5152;
    assert CbrtFraction(97, 4, 0x983e5152);
    assert FirstPrimes[25] == 101 && CbrtIntegerParts[25] == 4 && K[25] == 0xa831c66d;
    assert CbrtFraction(101, 4, 0xa831c66d);
  }

  lemma RoundConstantsFromCubeRoots13()
    ensures forall i :: 26 <= i < 28 ==> CbrtFraction(FirstPrimes[i], CbrtIntegerParts[i], K[i])
  {
    assert FirstPrimes[26] == 103 && CbrtIntegerParts[26] == 4 && K[26] == 0xb00327c8;
    assert CbrtFraction(103, 4, 0xb00327c8);
    assert FirstPrimes[27] == 107 && CbrtIntegerParts[27] == 4 && K[27] == 0xbf597fc7;
    assert CbrtFraction(107, 4, 0xbf597fc7);
  }

  lemma RoundConstantsFromCubeRoots14()
    ensures forall i :: 28 <= i < 30 ==> CbrtFraction(FirstPrimes[i], CbrtIntegerParts[i], K[i])
  {
    assert FirstPrimes[28] == 109 && CbrtIntegerParts[28] == 4 && K[28] == 0xc6e00bf3;
    assert CbrtFraction(109, 4, 0xc6e00bf3);
    assert FirstPrimes[29] == 113 && CbrtIntegerParts[29] == 4 && K[29] == 0xd5a79147;
    assert CbrtFraction(113, 4, 0xd5a79147);
  }

  lemma RoundConstantsFromCubeRoots15()
    ensures forall i :: 30 <= i < 32 ==> CbrtFraction(FirstPrimes[i], CbrtIntegerParts[i], K[i])
  {
    assert FirstPrimes[30] == 127 && CbrtIntegerParts[30] == 5 && K[30] == 0x06ca6351;
    assert CbrtFraction(127, 5, 0x06ca6351);
    assert FirstPrimes[31] == 131 && CbrtIntegerParts[31] == 5 && K[31] == 0x14292967;
    assert CbrtFraction(131, 5, 0x14292967);
  }

  lemma RoundConstantsFromCubeRoots16()
    ensures forall i :: 32 <= i < 34 ==> CbrtFraction(FirstPrimes[i], CbrtIntegerParts[i], K[i])
  {
    assert FirstPrimes[32] == 137 && CbrtIntegerParts[32] == 5 && K[32] == 0x27b70a85;
    assert CbrtFraction(137, 5, 0x27b70a85);
    assert FirstPrimes[33] == 139 && CbrtIntegerParts[33] == 5 && K[33] == 0x2e1b2138;
    assert CbrtFraction(139, 5, 0x2e1b2138);
  }

  lemma RoundConstantsFromCubeRoots17()
    ensures forall i :: 34 <= i < 36 ==> CbrtFraction(FirstPrimes[i], CbrtIntegerParts[i], K[i])
  {
    assert FirstPrimes[34] == 149 && CbrtIntegerParts[34] == 5 && K[34] == 0x4d2c6dfc;
    assert CbrtFraction(149, 5, 0x4d2c6dfc);
    assert FirstPrimes[35] == 151 && CbrtIntegerParts[35] == 5 && K[35] == 0x53380d13;
    assert CbrtFraction(151, 5, 0x53380d13);
  }

  lemma RoundConstantsFromCubeRoots18()
    ensures forall i :: 36 <= i < 38 ==> CbrtFraction(FirstPrimes[i], CbrtIntegerParts[i], K[i])
  {
    assert FirstPrimes[36] == 157 && CbrtIntegerParts[36] == 5 && K[36] == 0x650a7354;
    assert CbrtFraction(157, 5, 0x650a7354);
    assert FirstPrimes[37] == 163 && CbrtIntegerParts[37] == 5 && K[37] == 0x766a0abb;
    assert CbrtFraction(163, 5, 0x766a0abb);
  }

  lemma RoundConstantsFromCubeRoots19()
    ensures forall i :: 38 <= i < 40 ==> CbrtFraction(FirstPrimes[i], CbrtIntegerParts[i], K[i])
  {
    assert FirstPrimes[38] == 167 && CbrtIntegerParts[38] == 5 && K[38] == 0x81c2c92e;
    assert CbrtFraction(167, 5, 0x81c2c92e);
    assert FirstPrimes[39] == 173 && CbrtIntegerParts[39] == 5 && K[39] == 0x92722c85;
    assert CbrtFraction(173, 5, 0x92722c85);
  }

  lemma RoundConstantsFromCubeRoots20()
    ensures forall i :: 40 <= i < 42 ==> CbrtFraction(FirstPrimes[i], CbrtIntegerParts[i], K[i])
  {
    assert FirstPrimes[40] == 179 && CbrtIntegerParts[40] == 5 && K[40] == 0xa2bfe8a1;
    assert CbrtFraction(179, 5, 0xa2bfe8a1);
    assert FirstPrimes[41] == 181 && CbrtIntegerParts[41] == 5 && K[41] == 0xa81a664b;
    assert CbrtFraction(181, 5, 0xa81a664b);
  }

  lemma RoundConstantsFromCubeRoots21()
    ensures forall i :: 42 <= i < 44 ==> CbrtFraction(FirstPrimes[i], CbrtIntegerParts[i], K[i])
  {
    assert FirstPrimes[42] == 191 && CbrtIntegerParts[42] == 5 && K[42] == 0xc24b8b70;
    assert CbrtFraction(191, 5, 0xc24b8b70);
    assert FirstPrimes[43] == 193 && CbrtIntegerParts[43] == 5 && K[43] == 0xc76c51a3;
    assert CbrtFraction(193, 5, 0xc76c51a3);
  }

  lemma RoundConstantsFromCubeRoots22()
    ensures forall i :: 44 <= i < 46 ==> CbrtFraction(FirstPrimes[i], CbrtIntegerParts[i], K[i])
  {
    assert FirstPrimes[44] == 197 && CbrtIntegerParts[44] == 5 && K[44] == 0xd192e819;
    assert CbrtFraction(197, 5, 0xd192e819);
    assert FirstPrimes[45] == 199 && CbrtIntegerParts[45] == 5 && K[45] == 0xd6990624;
    assert CbrtFraction(199, 5, 0xd6990624);
  }

  lemma RoundConstantsFromCubeRoots23()
    ensures forall i :: 46 <= i < 48 ==> CbrtFraction(FirstPrimes[i], CbrtIntegerParts[i], K[i])
  {
    assert FirstPrimes[46] == 211 && CbrtIntegerParts[46] == 5 && K[46] == 0xf40e3585;
    assert CbrtFraction(211, 5, 0xf40e3585);
    assert FirstPrimes[47] == 223 && CbrtIntegerParts[47] == 6 && K[47] == 0x106aa070;
    assert CbrtFraction(223, 6, 0x106aa070);
  }

  lemma RoundConstantsFromCubeRoots24()
    ensures forall i :: 48 <= i < 50 ==> CbrtFraction(FirstPrimes[i], CbrtIntegerParts[i], K[i])
  {
    assert FirstPrimes[48] == 227 && CbrtIntegerParts[48] == 6 && K[48] == 0x19a4c116;
    assert CbrtFraction(227, 6, 0x19a4c116);
    assert FirstPrimes[49] == 229 && CbrtIntegerParts[49] == 6 && K[49] == 0x1e376c08;
    assert CbrtFraction(229, 6, 0x1e376c08);
  }

  lemma RoundConstantsFromCubeRoots25()
    ensures forall i :: 50 <= i < 52 ==> CbrtFraction(FirstPrimes[i], CbrtIntegerParts[i], K[i])
  {
    assert FirstPrimes[50] == 233 && CbrtIntegerParts[50] == 6 && K[50] == 0x2748774c;
    assert CbrtFraction(233, 6, 0x2748774c);
    assert FirstPrimes[51] == 239 && CbrtIntegerParts[51] == 6 && K[51] == 0x34b0bcb5;
    assert CbrtFraction(239, 6, 0x34b0bcb5);
  }

  lemma RoundConstantsFromCubeRoots26()
    ensures forall i :: 52 <= i < 54 ==> CbrtFraction(FirstPrimes[i], CbrtIntegerParts[i], K[i])
  {
    assert FirstPrimes[52] == 241 && CbrtIntegerParts[52] == 6 && K[52] == 0x391c0cb3;
    assert CbrtFraction(241, 6, 0x391c0cb3);
    assert FirstPrimes[53] == 251 && CbrtIntegerParts[53] == 6 && K[53] == 0x4ed8aa4a;
    assert CbrtFraction(251, 6, 0x4ed8aa4a);
  }

  lemma RoundConstantsFromCubeRoots27()
    ensures forall i :: 54 <= i < 56 ==> CbrtFraction(FirstPrimes[i], CbrtIntegerParts[i], K[i])
  {
    assert FirstPrimes[54] == 257 && CbrtIntegerParts[54] == 6 && K[54] == 0x5b9cca4f;
    assert CbrtFraction(257, 6, 0x5b9cca4f);
    assert FirstPrimes[55] == 263 && CbrtIntegerParts[55] == 6 && K[55] == 0x682e6ff3;
    assert CbrtFraction(263, 6, 0x682e6ff3);
  }

  lemma RoundConstantsFromCubeRoots28()
    ensures forall i :: 56 <= i < 58 ==> CbrtFraction(FirstPrimes[i], CbrtIntegerParts[i], K[i])
  {
    assert FirstPrimes[56] == 269 && CbrtIntegerParts[56] == 6 && K[56] == 0x748f82ee;
    assert CbrtFraction(269, 6, 0x748f82ee);
    assert FirstPrimes[57] == 271 && CbrtIntegerParts[57] == 6 && K[57] == 0x78a5636f;
    assert CbrtFraction(271, 6, 0x78a5636f);
  }

  lemma RoundConstantsFromCubeRoots29()
    ensures forall i :: 58 <= i < 60 ==> CbrtFraction(FirstPrimes[i], CbrtIntegerParts[i], K[i])
  {
    assert FirstPrimes[58] == 277 && CbrtIntegerParts[58] == 6 && K[58] == 0x84c87814;
    assert CbrtFraction(277, 6, 0x84c87814);
    assert FirstPrimes[59] == 281 && CbrtIntegerParts[59] == 6 && K[59] == 0x8cc70208;
    assert CbrtFraction(281, 6, 0x8cc70208);
  }

  lemma RoundConstantsFromCubeRoots30()
    ensures forall i :: 60 <= i < 62 ==> CbrtFraction(FirstPrimes[i], CbrtIntegerParts[i], K[i])
  {
    assert FirstPrimes[60] == 283 && CbrtIntegerParts[60] == 6 && K[60] == 0x90befffa;
    assert CbrtFraction(283, 6, 0x90befffa);
    assert FirstPrimes[61] == 293 && CbrtIntegerParts[61] == 6 && K[61] == 0xa4506ceb;
    assert CbrtFraction(293, 6, 0xa4506ceb);
  }

  lemma RoundConstantsFromCubeRoots31()
    ensures forall i :: 62 <= i < 64 ==> CbrtFraction(FirstPrimes[i], CbrtIntegerParts[i], K[i])
  {
    assert FirstPrimes[62] == 307 && CbrtIntegerParts[62] == 6 && K[62] == 0xbef9a3f7;
    assert CbrtFraction(307, 6, 0xbef9a3f7);
    assert FirstPrimes[63] == 311 && CbrtIntegerParts[63] == 6 && K[63] == 0xc67178f2;
    assert CbrtFraction(311, 6, 0xc67178f2);
  }
}
