/**
 * The known-answer test of `sha.rs`: the digest engine maps the three bytes
 * "abc" to ba7816bf 8f01cfea 414140de 5dae2223 b00361a3 96177a9c b410ff61
 * f20015ad, the value of NIST's published SHA-256 example with intermediate
 * values. The proof follows the computation: the one block hashed, its 64
 * schedule words, the working variables after every round and the final
 * state.
 */
module ShaKnownAnswer {
  import opened ShaFunctions
  import opened ShaSpec
  import opened SeqFacts
  import opened ShaPadding

  /** The message of the test. */
  const Abc: seq<Byte> := [0x61, 0x62, 0x63]

  /** The only block hashed for "abc", as sixteen big-endian words. */
  const AbcWords: seq<Word> := [0x61626380] + seq(13, _ => 0) + [0, 0x18]

  /** The block's message schedule. */
  const AbcSchedule: seq<Word> :=
    [0x61626380, 0x00000000, 0x00000000, 0x00000000, 0x00000000, 0x00000000, 0x00000000, 0x00000000] +
    [0x00000000, 0x00000000, 0x00000000, 0x00000000, 0x00000000, 0x00000000, 0x00000000, 0x00000018] +
    [0x61626380, 0x000f0000, 0x7da86405, 0x600003c6, 0x3e9d7b78, 0x0183fc00, 0x12dcbfdb, 0xe2e2c38e] +
    [0xc8215c1a, 0xb73679a2, 0xe5bc3909, 0x32663c5b, 0x9d209d67, 0xec8726cb, 0x702138a4, 0xd3b7973b] +
    [0x93f5997f, 0x3b68ba73, 0xaff4ffc1, 0xf10a5c62, 0x0a8b3996, 0x72af830a, 0x9409e33e, 0x24641522] +
    [0x9f47bf94, 0xf0a64f5a, 0x3e246a79, 0x27333ba3, 0x0c4763f2, 0x840abf27, 0x7a290d5d, 0x065c43da] +
    [0xfb3e89cb, 0xcc7617db, 0xb9e66c34, 0xa9993667, 0x84badedd, 0xc21462bc, 0x1487472c, 0xb20f7a99] +
    [0xef57b9cd, 0xebe6b238, 0x9fe3095e, 0x78bc8d4b, 0xa43fcf15, 0x668b2ff8, 0xeeaba2cc, 0x12b1edeb]

  /** The digest the test expects. */
  const AbcDigest: seq<Byte> :=
    [0xba, 0x78, 0x16, 0xbf, 0x8f, 0x01, 0xcf, 0xea] +
    [0x41, 0x41, 0x40, 0xde, 0x5d, 0xae, 0x22, 0x23] +
    [0xb0, 0x03, 0x61, 0xa3, 0x96, 0x17, 0x7a, 0x9c] +
    [0xb4, 0x10, 0xff, 0x61, 0xf2, 0x00, 0x15, 0xad]

  /** The state after the block is added in. */
  const AbcFinal: seq<Word> := [0xba7816bf, 0x8f01cfea, 0x414140de, 0x5dae2223, 0xb00361a3, 0x96177a9c, 0xb410ff61, 0xf20015ad]

  // ---------------------------------------------------------------------------
  // The block
  // ---------------------------------------------------------------------------

  /** Writing words out and reading them back gives the same words. */
  lemma {:induction false} DigestAppend(a: seq<Word>, b: seq<Word>)
    ensures Digest(a + b) == Digest(a) + Digest(b)
  {
    if a != [] {
      assert (a + b)[1..] == a[1..] + b;
      DigestAppend(a[1..], b);
      Associative(WordToBytes(a[0]), Digest(a[1..]), Digest(b));
    } else {
      EmptyAppend(b);
      EmptyAppend(Digest(b));
    }
  }

  /** Zero words are written out as zero bytes. */
  lemma {:induction false} DigestOfZeros(n: nat)
    ensures Digest(seq(n, _ => 0)) == Zeros(4 * n)
  {
    var z: seq<Word> := seq(n, _ => 0);
    if n > 0 {
      assert z[1..] == seq(n - 1, _ => 0);
      DigestOfZeros(n - 1);
      assert WordToBytes(z[0]) == Zeros(4);
      assert Zeros(4 + 4 * (n - 1)) == Zeros(4) + Zeros(4 * (n - 1));
    } else {
      assert z == [];
      assert Zeros(0) == [];
    }
  }

  /** The sixteen words, written big-endian, are "abc", 0x80, zeros and the bit length 24. */
  lemma AbcBlockBytes()
    ensures Digest(AbcWords) == Abc + [0x80] + Zeros(52) + U64ToBytes(BitLength(3))
  {
    DigestAppend([0x61626380] + seq(13, _ => 0), [0, 0x18]);
    DigestAppend([0x61626380], seq(13, _ => 0));
    assert Digest([0x61626380]) == Abc + [0x80];
    DigestOfZeros(13);
    assert Digest([0, 0x18]) == U64ToBytes(BitLength(3));
  }

  /** The engine hashes "abc" as that one block. */
  lemma AbcBlocks()
    ensures SourceBlocks(Abc) == [Digest(AbcWords)]
  {
    AbcBlockBytes();
    assert Remainder(Abc) == Abc;
    assert Chunks(Abc) == [];
    EmptyAppend([Digest(AbcWords)]);
  }

  /** Sixteen words written out big-endian read back as the same words. */
  lemma BlockWords(ws: seq<Word>)
    requires |ws| == 16
    ensures |Digest(ws)| == 64
    ensures forall i :: 0 <= i < 16 ==> BytesToWord(Digest(ws)[4 * i .. 4 * i + 4]) == ws[i]
  {
    DigestLayout(ws);
    forall i | 0 <= i < 16 ensures BytesToWord(Digest(ws)[4 * i .. 4 * i + 4]) == ws[i] {
      WordBytesWord(ws[i]);
    }
  }

  // ---------------------------------------------------------------------------
  // The schedule
  // ---------------------------------------------------------------------------

  lemma WordFollows16()
    ensures AbcSchedule[16] == NextWord(AbcSchedule, 16)
  {
  }

  lemma WordFollows17()
    ensures AbcSchedule[17] == NextWord(AbcSchedule, 17)
  {
  }

  lemma WordFollows18()
    ensures AbcSchedule[18] == NextWord(AbcSchedule, 18)
  {
  }

  lemma WordFollows19()
    ensures AbcSchedule[19] == NextWord(AbcSchedule, 19)
  {
  }

  lemma WordFollows20()
    ensures AbcSchedule[20] == NextWord(AbcSchedule, 20)
  {
  }

  lemma WordFollows21()
    ensures AbcSchedule[21] == NextWord(AbcSchedule, 21)
  {
  }

  lemma WordFollows22()
    ensures AbcSchedule[22] == NextWord(AbcSchedule, 22)
  {
  }

  lemma WordFollows23()
    ensures AbcSchedule[23] == NextWord(AbcSchedule, 23)
  {
  }

  lemma WordFollows24()
    ensures AbcSchedule[24] == NextWord(AbcSchedule, 24)
  {
  }

  lemma WordFollows25()
    ensures AbcSchedule[25] == NextWord(AbcSchedule, 25)
  {
  }

  lemma WordFollows26()
    ensures AbcSchedule[26] == NextWord(AbcSchedule, 26)
  {
  }

  lemma WordFollows27()
    ensures AbcSchedule[27] == NextWord(AbcSchedule, 27)
  {
  }

  lemma WordFollows28()
    ensures AbcSchedule[28] == NextWord(AbcSchedule, 28)
  {
  }

  lemma WordFollows29()
    ensures AbcSchedule[29] == NextWord(AbcSchedule, 29)
  {
  }

  lemma WordFollows30()
    ensures AbcSchedule[30] == NextWord(AbcSchedule, 30)
  {
  }

  lemma WordFollows31()
    ensures AbcSchedule[31] == NextWord(AbcSchedule, 31)
  {
  }

  lemma WordFollows32()
    ensures AbcSchedule[32] == NextWord(AbcSchedule, 32)
  {
  }

  lemma WordFollows33()
    ensures AbcSchedule[33] == NextWord(AbcSchedule, 33)
  {
  }

  lemma WordFollows34()
    ensures AbcSchedule[34] == NextWord(AbcSchedule, 34)
  {
  }

  lemma WordFollows35()
    ensures AbcSchedule[35] == NextWord(AbcSchedule, 35)
  {
  }

  lemma WordFollows36()
    ensures AbcSchedule[36] == NextWord(AbcSchedule, 36)
  {
  }

  lemma WordFollows37()
    ensures AbcSchedule[37] == NextWord(AbcSchedule, 37)
  {
  }

  lemma WordFollows38()
    ensures AbcSchedule[38] == NextWord(AbcSchedule, 38)
  {
  }

  lemma WordFollows39()
    ensures AbcSchedule[39] == NextWord(AbcSchedule, 39)
  {
  }

  lemma WordFollows40()
    ensures AbcSchedule[40] == NextWord(AbcSchedule, 40)
  {
  }

  lemma WordFollows41()
    ensures AbcSchedule[41] == NextWord(AbcSchedule, 41)
  {
  }

  lemma WordFollows42()
    ensures AbcSchedule[42] == NextWord(AbcSchedule, 42)
  {
  }

  lemma WordFollows43()
    ensures AbcSchedule[43] == NextWord(AbcSchedule, 43)
  {
  }

  lemma WordFollows44()
    ensures AbcSchedule[44] == NextWord(AbcSchedule, 44)
  {
  }

  lemma WordFollows45()
    ensures AbcSchedule[45] == NextWord(AbcSchedule, 45)
  {
  }

  lemma WordFollows46()
    ensures AbcSchedule[46] == NextWord(AbcSchedule, 46)
  {
  }

  lemma WordFollows47()
    ensures AbcSchedule[47] == NextWord(AbcSchedule, 47)
  {
  }

  lemma WordFollows48()
    ensures AbcSchedule[48] == NextWord(AbcSchedule, 48)
  {
  }

  lemma WordFollows49()
    ensures AbcSchedule[49] == NextWord(AbcSchedule, 49)
  {
  }

  lemma WordFollows50()
    ensures AbcSchedule[50] == NextWord(AbcSchedule, 50)
  {
  }

  lemma WordFollows51()
    ensures AbcSchedule[51] == NextWord(AbcSchedule, 51)
  {
  }

  lemma WordFollows52()
    ensures AbcSchedule[52] == NextWord(AbcSchedule, 52)
  {
  }

  lemma WordFollows53()
    ensures AbcSchedule[53] == NextWord(AbcSchedule, 53)
  {
  }

  lemma WordFollows54()
    ensures AbcSchedule[54] == NextWord(AbcSchedule, 54)
  {
  }

  lemma WordFollows55()
    ensures AbcSchedule[55] == NextWord(AbcSchedule, 55)
  {
  }

  lemma WordFollows56()
    ensures AbcSchedule[56] == NextWord(AbcSchedule, 56)
  {
  }

  lemma WordFollows57()
    ensures AbcSchedule[57] == NextWord(AbcSchedule, 57)
  {
  }

  lemma WordFollows58()
    ensures AbcSchedule[58] == NextWord(AbcSchedule, 58)
  {
  }

  lemma WordFollows59()
    ensures AbcSchedule[59] == NextWord(AbcSchedule, 59)
  {
  }

  lemma WordFollows60()
    ensures AbcSchedule[60] == NextWord(AbcSchedule, 60)
  {
  }

  lemma WordFollows61()
    ensures AbcSchedule[61] == NextWord(AbcSchedule, 61)
  {
  }

  lemma WordFollows62()
    ensures AbcSchedule[62] == NextWord(AbcSchedule, 62)
  {
  }

  lemma WordFollows63()
    ensures AbcSchedule[63] == NextWord(AbcSchedule, 63)
  {
  }

  lemma WordsFollow16To23()
    ensures forall i :: 16 <= i < 24 ==> AbcSchedule[i] == NextWord(AbcSchedule, i)
  {
    forall i | 16 <= i < 24 ensures AbcSchedule[i] == NextWord(AbcSchedule, i) {
      if i == 16 { WordFollows16(); } else if i == 17 { WordFollows17(); } else if i == 18 { WordFollows18(); } else if i == 19 { WordFollows19(); } else if i == 20 { WordFollows20(); } else if i == 21 { WordFollows21(); } else if i == 22 { WordFollows22(); } else { WordFollows23(); }
    }
  }

  lemma WordsFollow24To31()
    ensures forall i :: 24 <= i < 32 ==> AbcSchedule[i] == NextWord(AbcSchedule, i)
  {
    forall i | 24 <= i < 32 ensures AbcSchedule[i] == NextWord(AbcSchedule, i) {
      if i == 24 { WordFollows24(); } else if i == 25 { WordFollows25(); } else if i == 26 { WordFollows26(); } else if i == 27 { WordFollows27(); } else if i == 28 { WordFollows28(); } else if i == 29 { WordFollows29(); } else if i == 30 { WordFollows30(); } else { WordFollows31(); }
    }
  }

  lemma WordsFollow32To39()
    ensures forall i :: 32 <= i < 40 ==> AbcSchedule[i] == NextWord(AbcSchedule, i)
  {
    forall i | 32 <= i < 40 ensures AbcSchedule[i] == NextWord(AbcSchedule, i) {
      if i == 32 { WordFollows32(); } else if i == 33 { WordFollows33(); } else if i == 34 { WordFollows34(); } else if i == 35 { WordFollows35(); } else if i == 36 { WordFollows36(); } else if i == 37 { WordFollows37(); } else if i == 38 { WordFollows38(); } else { WordFollows39(); }
    }
  }

  lemma WordsFollow40To47()
    ensures forall i :: 40 <= i < 48 ==> AbcSchedule[i] == NextWord(AbcSchedule, i)
  {
    forall i | 40 <= i < 48 ensures AbcSchedule[i] == NextWord(AbcSchedule, i) {
      if i == 40 { WordFollows40(); } else if i == 41 { WordFollows41(); } else if i == 42 { WordFollows42(); } else if i == 43 { WordFollows43(); } else if i == 44 { WordFollows44(); } else if i == 45 { WordFollows45(); } else if i == 46 { WordFollows46(); } else { WordFollows47(); }
    }
  }

  lemma WordsFollow48To55()
    ensures forall i :: 48 <= i < 56 ==> AbcSchedule[i] == NextWord(AbcSchedule, i)
  {
    forall i | 48 <= i < 56 ensures AbcSchedule[i] == NextWord(AbcSchedule, i) {
      if i == 48 { WordFollows48(); } else if i == 49 { WordFollows49(); } else if i == 50 { WordFollows50(); } else if i == 51 { WordFollows51(); } else if i == 52 { WordFollows52(); } else if i == 53 { WordFollows53(); } else if i == 54 { WordFollows54(); } else { WordFollows55(); }
    }
  }

  lemma WordsFollow56To63()
    ensures forall i :: 56 <= i < 64 ==> AbcSchedule[i] == NextWord(AbcSchedule, i)
  {
    forall i | 56 <= i < 64 ensures AbcSchedule[i] == NextWord(AbcSchedule, i) {
      if i == 56 { WordFollows56(); } else if i == 57 { WordFollows57(); } else if i == 58 { WordFollows58(); } else if i == 59 { WordFollows59(); } else if i == 60 { WordFollows60(); } else if i == 61 { WordFollows61(); } else if i == 62 { WordFollows62(); } else { WordFollows63(); }
    }
  }

  /** The block's schedule is the table above. */
  lemma AbcBlockSchedule()
    ensures |Digest(AbcWords)| == 64 && Schedule(Digest(AbcWords)) == AbcSchedule
  {
    BlockWords(AbcWords);
    assert forall i :: 0 <= i < 16 ==> AbcSchedule[i] == AbcWords[i];
    WordsFollow16To23();
    WordsFollow24To31();
    WordsFollow32To39();
    WordsFollow40To47();
    WordsFollow48To55();
    WordsFollow56To63();
    ScheduleUnique(Digest(AbcWords), AbcSchedule);
  }

  // ---------------------------------------------------------------------------
  // The rounds
  // ---------------------------------------------------------------------------

  /** One more round on top of rounds 0..t-1. */
  lemma RoundsNext(v: Working, w: seq<Word>, t: nat, s: Working, s': Working)
    requires t < |w| <= 64
    requires Rounds(v, w[..t]) == s && Round(s, K[t], w[t]) == s'
    ensures Rounds(v, w[..t + 1]) == s'
  {
    RoundsStep(v, w, t);
  }

  /** Before round 0 the working variables are H0. */
  lemma AbcRounds0()
    ensures Rounds(Load(H0), AbcSchedule[..0]) == Working(0x6a09e667, 0xbb67ae85, 0x3c6ef372, 0xa54ff53a, 0x510e527f, 0x9b05688c, 0x1f83d9ab, 0x5be0cd19)
  {
    assert AbcSchedule[..0] == [];
  }

  lemma AbcRounds1()
    ensures Rounds(Load(H0), AbcSchedule[..1]) ==
      Working(0x5d6aebcd, 0x6a09e667, 0xbb67ae85, 0x3c6ef372, 0xfa2a4622, 0x510e527f, 0x9b05688c, 0x1f83d9ab)
  {
    AbcRounds0();
    assert K[0] == 0x428a2f98 && AbcSchedule[0] == 0x61626380;
    RoundsNext(Load(H0), AbcSchedule, 0,
      Working(0x6a09e667, 0xbb67ae85, 0x3c6ef372, 0xa54ff53a, 0x510e527f, 0x9b05688c, 0x1f83d9ab, 0x5be0cd19),
      Working(0x5d6aebcd, 0x6a09e667, 0xbb67ae85, 0x3c6ef372, 0xfa2a4622, 0x510e527f, 0x9b05688c, 0x1f83d9ab));
  }

  lemma AbcRounds2()
    ensures Rounds(Load(H0), AbcSchedule[..2]) ==
      Working(0x5a6ad9ad, 0x5d6aebcd, 0x6a09e667, 0xbb67ae85, 0x78ce7989, 0xfa2a4622, 0x510e527f, 0x9b05688c)
  {
    AbcRounds1();
    assert K[1] == 0x71374491 && AbcSchedule[1] == 0x00000000;
    RoundsNext(Load(H0), AbcSchedule, 1,
      Working(0x5d6aebcd, 0x6a09e667, 0xbb67ae85, 0x3c6ef372, 0xfa2a4622, 0x510e527f, 0x9b05688c, 0x1f83d9ab),
      Working(0x5a6ad9ad, 0x5d6aebcd, 0x6a09e667, 0xbb67ae85, 0x78ce7989, 0xfa2a4622, 0x510e527f, 0x9b05688c));
  }

  lemma AbcRounds3()
    ensures Rounds(Load(H0), AbcSchedule[..3]) ==
      Working(0xc8c347a7, 0x5a6ad9ad, 0x5d6aebcd, 0x6a09e667, 0xf92939eb, 0x78ce7989, 0xfa2a4622, 0x510e527f)
  {
    AbcRounds2();
    assert K[2] == 0xb5c0fbcf && AbcSchedule[2] == 0x00000000;
    RoundsNext(Load(H0), AbcSchedule, 2,
      Working(0x5a6ad9ad, 0x5d6aebcd, 0x6a09e667, 0xbb67ae85, 0x78ce7989, 0xfa2a4622, 0x510e527f, 0x9b05688c),
      Working(0xc8c347a7, 0x5a6ad9ad, 0x5d6aebcd, 0x6a09e667, 0xf92939eb, 0x78ce7989, 0xfa2a4622, 0x510e527f));
  }

  lemma AbcRounds4()
    ensures Rounds(Load(H0), AbcSchedule[..4]) ==
      Working(0xd550f666, 0xc8c347a7, 0x5a6ad9ad, 0x5d6aebcd, 0x24e00850, 0xf92939eb, 0x78ce7989, 0xfa2a4622)
  {
    AbcRounds3();
    assert K[3] == 0xe9b5dba5 && AbcSchedule[3] == 0x00000000;
    RoundsNext(Load(H0), AbcSchedule, 3,
      Working(0xc8c347a7, 0x5a6ad9ad, 0x5d6aebcd, 0x6a09e667, 0xf92939eb, 0x78ce7989, 0xfa2a4622, 0x510e527f),
      Working(0xd550f666, 0xc8c347a7, 0x5a6ad9ad, 0x5d6aebcd, 0x24e00850, 0xf92939eb, 0x78ce7989, 0xfa2a4622));
  }

  lemma AbcRounds5()
    ensures Rounds(Load(H0), AbcSchedule[..5]) ==
      Working(0x04409a6a, 0xd550f666, 0xc8c347a7, 0x5a6ad9ad, 0x43ada245, 0x24e00850, 0xf92939eb, 0x78ce7989)
  {
    AbcRounds4();
    assert K[4] == 0x3956c25b && AbcSchedule[4] == 0x00000000;
    RoundsNext(Load(H0), AbcSchedule, 4,
      Working(0xd550f666, 0xc8c347a7, 0x5a6ad9ad, 0x5d6aebcd, 0x24e00850, 0xf92939eb, 0x78ce7989, 0xfa2a4622),
      Working(0x04409a6a, 0xd550f666, 0xc8c347a7, 0x5a6ad9ad, 0x43ada245, 0x24e00850, 0xf92939eb, 0x78ce7989));
  }

  lemma AbcRounds6()
    ensures Rounds(Load(H0), AbcSchedule[..6]) ==
      Working(0x2b4209f5, 0x04409a6a, 0xd550f666, 0xc8c347a7, 0x714260ad, 0x43ada245, 0x24e00850, 0xf92939eb)
  {
    AbcRounds5();
    assert K[5] == 0x59f111f1 && AbcSchedule[5] == 0x00000000;
    RoundsNext(Load(H0), AbcSchedule, 5,
      Working(0x04409a6a, 0xd550f666, 0xc8c347a7, 0x5a6ad9ad, 0x43ada245, 0x24e00850, 0xf92939eb, 0x78ce7989),
      Working(0x2b4209f5, 0x04409a6a, 0xd550f666, 0xc8c347a7, 0x714260ad, 0x43ada245, 0x24e00850, 0xf92939eb));
  }

  lemma AbcRounds7()
    ensures Rounds(Load(H0), AbcSchedule[..7]) ==
      Working(0xe5030380, 0x2b4209f5, 0x04409a6a, 0xd550f666, 0x9b27a401, 0x714260ad, 0x43ada245, 0x24e00850)
  {
    AbcRounds6();
    assert K[6] == 0x923f82a4 && AbcSchedule[6] == 0x00000000;
    RoundsNext(Load(H0), AbcSchedule, 6,
      Working(0x2b4209f5, 0x04409a6a, 0xd550f666, 0xc8c347a7, 0x714260ad, 0x43ada245, 0x24e00850, 0xf92939eb),
      Working(0xe5030380, 0x2b4209f5, 0x04409a6a, 0xd550f666, 0x9b27a401, 0x714260ad, 0x43ada245, 0x24e00850));
  }

  lemma AbcRounds8()
    ensures Rounds(Load(H0), AbcSchedule[..8]) ==
      Working(0x85a07b5f, 0xe5030380, 0x2b4209f5, 0x04409a6a, 0x0c657a79, 0x9b27a401, 0x714260ad, 0x43ada245)
  {
    AbcRounds7();
    assert K[7] == 0xab1c5ed5 && AbcSchedule[7] == 0x00000000;
    RoundsNext(Load(H0), AbcSchedule, 7,
      Working(0xe5030380, 0x2b4209f5, 0x04409a6a, 0xd550f666, 0x9b27a401, 0x714260ad, 0x43ada245, 0x24e00850),
      Working(0x85a07b5f, 0xe5030380, 0x2b4209f5, 0x04409a6a, 0x0c657a79, 0x9b27a401, 0x714260ad, 0x43ada245));
  }

  lemma AbcRounds9()
    ensures Rounds(Load(H0), AbcSchedule[..9]) ==
      Working(0x8e04ecb9, 0x85a07b5f, 0xe5030380, 0x2b4209f5, 0x32ca2d8c, 0x0c657a79, 0x9b27a401, 0x714260ad)
  {
    AbcRounds8();
    assert K[8] == 0xd807aa98 && AbcSchedule[8] == 0x00000000;
    RoundsNext(Load(H0), AbcSchedule, 8,
      Working(0x85a07b5f, 0xe5030380, 0x2b4209f5, 0x04409a6a, 0x0c657a79, 0x9b27a401, 0x714260ad, 0x43ada245),
      Working(0x8e04ecb9, 0x85a07b5f, 0xe5030380, 0x2b4209f5, 0x32ca2d8c, 0x0c657a79, 0x9b27a401, 0x714260ad));
  }

  lemma AbcRounds10()
    ensures Rounds(Load(H0), AbcSchedule[..10]) ==
      Working(0x8c87346b, 0x8e04ecb9, 0x85a07b5f, 0xe5030380, 0x1cc92596, 0x32ca2d8c, 0x0c657a79, 0x9b27a401)
  {
    AbcRounds9();
    assert K[9] == 0x12835b01 && AbcSchedule[9] == 0x00000000;
    RoundsNext(Load(H0), AbcSchedule, 9,
      Working(0x8e04ecb9, 0x85a07b5f, 0xe5030380, 0x2b4209f5, 0x32ca2d8c, 0x0c657a79, 0x9b27a401, 0x714260ad),
      Working(0x8c87346b, 0x8e04ecb9, 0x85a07b5f, 0xe5030380, 0x1cc92596, 0x32ca2d8c, 0x0c657a79, 0x9b27a401));
  }

  lemma AbcRounds11()
    ensures Rounds(Load(H0), AbcSchedule[..11]) ==
      Working(0x4798a3f4, 0x8c87346b, 0x8e04ecb9, 0x85a07b5f, 0x436b23e8, 0x1cc92596, 0x32ca2d8c, 0x0c657a79)
  {
    AbcRounds10();
    assert K[10] == 0x243185be && AbcSchedule[10] == 0x00000000;
    RoundsNext(Load(H0), AbcSchedule, 10,
      Working(0x8c87346b, 0x8e04ecb9, 0x85a07b5f, 0xe5030380, 0x1cc92596, 0x32ca2d8c, 0x0c657a79, 0x9b27a401),
      Working(0x4798a3f4, 0x8c87346b, 0x8e04ecb9, 0x85a07b5f, 0x436b23e8, 0x1cc92596, 0x32ca2d8c, 0x0c657a79));
  }

  lemma AbcRounds12()
    ensures Rounds(Load(H0), AbcSchedule[..12]) ==
      Working(0xf71fc5a9, 0x4798a3f4, 0x8c87346b, 0x8e04ecb9, 0x816fd6e9, 0x436b23e8, 0x1cc92596, 0x32ca2d8c)
  {
    AbcRounds11();
    assert K[11] == 0x550c7dc3 && AbcSchedule[11] == 0x00000000;
    RoundsNext(Load(H0), AbcSchedule, 11,
      Working(0x4798a3f4, 0x8c87346b, 0x8e04ecb9, 0x85a07b5f, 0x436b23e8, 0x1cc92596, 0x32ca2d8c, 0x0c657a79),
      Working(0xf71fc5a9, 0x4798a3f4, 0x8c87346b, 0x8e04ecb9, 0x816fd6e9, 0x436b23e8, 0x1cc92596, 0x32ca2d8c));
  }

  lemma AbcRounds13()
    ensures Rounds(Load(H0), AbcSchedule[..13]) ==
      Working(0x87912990, 0xf71fc5a9, 0x4798a3f4, 0x8c87346b, 0x1e578218, 0x816fd6e9, 0x436b23e8, 0x1cc92596)
  {
    AbcRounds12();
    assert K[12] == 0x72be5d74 && AbcSchedule[12] == 0x00000000;
    RoundsNext(Load(H0), AbcSchedule, 12,
      Working(0xf71fc5a9, 0x4798a3f4, 0x8c87346b, 0x8e04ecb9, 0x816fd6e9, 0x436b23e8, 0x1cc92596, 0x32ca2d8c),
      Working(0x87912990, 0xf71fc5a9, 0x4798a3f4, 0x8c87346b, 0x1e578218, 0x816fd6e9, 0x436b23e8, 0x1cc92596));
  }

  lemma AbcRounds14()
    ensures Rounds(Load(H0), AbcSchedule[..14]) ==
      Working(0xd932eb16, 0x87912990, 0xf71fc5a9, 0x4798a3f4, 0x745a48de, 0x1e578218, 0x816fd6e9, 0x436b23e8)
  {
    AbcRounds13();
    assert K[13] == 0x80deb1fe && AbcSchedule[13] == 0x00000000;
    RoundsNext(Load(H0), AbcSchedule, 13,
      Working(0x87912990, 0xf71fc5a9, 0x4798a3f4, 0x8c87346b, 0x1e578218, 0x816fd6e9, 0x436b23e8, 0x1cc92596),
      Working(0xd932eb16, 0x87912990, 0xf71fc5a9, 0x4798a3f4, 0x745a48de, 0x1e578218, 0x816fd6e9, 0x436b23e8));
  }

  lemma AbcRounds15()
    ensures Rounds(Load(H0), AbcSchedule[..15]) ==
      Working(0xc0645fde, 0xd932eb16, 0x87912990, 0xf71fc5a9, 0x0b92f20c, 0x745a48de, 0x1e578218, 0x816fd6e9)
  {
    AbcRounds14();
    assert K[14] == 0x9bdc06a7 && AbcSchedule[14] == 0x00000000;
    RoundsNext(Load(H0), AbcSchedule, 14,
      Working(0xd932eb16, 0x87912990, 0xf71fc5a9, 0x4798a3f4, 0x745a48de, 0x1e578218, 0x816fd6e9, 0x436b23e8),
      Working(0xc0645fde, 0xd932eb16, 0x87912990, 0xf71fc5a9, 0x0b92f20c, 0x745a48de, 0x1e578218, 0x816fd6e9));
  }

  lemma AbcRounds16()
    ensures Rounds(Load(H0), AbcSchedule[..16]) ==
      Working(0xb0fa238e, 0xc0645fde, 0xd932eb16, 0x87912990, 0x07590dcd, 0x0b92f20c, 0x745a48de, 0x1e578218)
  {
    AbcRounds15();
    assert K[15] == 0xc19bf174 && AbcSchedule[15] == 0x00000018;
    RoundsNext(Load(H0), AbcSchedule, 15,
      Working(0xc0645fde, 0xd932eb16, 0x87912990, 0xf71fc5a9, 0x0b92f20c, 0x745a48de, 0x1e578218, 0x816fd6e9),
      Working(0xb0fa238e, 0xc0645fde, 0xd932eb16, 0x87912990, 0x07590dcd, 0x0b92f20c, 0x745a48de, 0x1e578218));
  }

  lemma AbcRounds17()
    ensures Rounds(Load(H0), AbcSchedule[..17]) ==
      Working(0x21da9a9b, 0xb0fa238e, 0xc0645fde, 0xd932eb16, 0x8034229c, 0x07590dcd, 0x0b92f20c, 0x745a48de)
  {
    AbcRounds16();
    assert K[16] == 0xe49b69c1 && AbcSchedule[16] == 0x61626380;
    RoundsNext(Load(H0), AbcSchedule, 16,
      Working(0xb0fa238e, 0xc0645fde, 0xd932eb16, 0x87912990, 0x07590dcd, 0x0b92f20c, 0x745a48de, 0x1e578218),
      Working(0x21da9a9b, 0xb0fa238e, 0xc0645fde, 0xd932eb16, 0x8034229c, 0x07590dcd, 0x0b92f20c, 0x745a48de));
  }

  lemma AbcRounds18()
    ensures Rounds(Load(H0), AbcSchedule[..18]) ==
      Working(0xc2fbd9d1, 0x21da9a9b, 0xb0fa238e, 0xc0645fde, 0x846ee454, 0x8034229c, 0x07590dcd, 0x0b92f20c)
  {
    AbcRounds17();
    assert K[17] == 0xefbe4786 && AbcSchedule[17] == 0x000f0000;
    RoundsNext(Load(H0), AbcSchedule, 17,
      Working(0x21da9a9b, 0xb0fa238e, 0xc0645fde, 0xd932eb16, 0x8034229c, 0x07590dcd, 0x0b92f20c, 0x745a48de),
      Working(0xc2fbd9d1, 0x21da9a9b, 0xb0fa238e, 0xc0645fde, 0x846ee454, 0x8034229c, 0x07590dcd, 0x0b92f20c));
  }

  lemma AbcRounds19()
    ensures Rounds(Load(H0), AbcSchedule[..19]) ==
      Working(0xfe777bbf, 0xc2fbd9d1, 0x21da9a9b, 0xb0fa238e, 0xcc899961, 0x846ee454, 0x8034229c, 0x07590dcd)
  {
    AbcRounds18();
    assert K[18] == 0x0fc19dc6 && AbcSchedule[18] == 0x7da86405;
    RoundsNext(Load(H0), AbcSchedule, 18,
      Working(0xc2fbd9d1, 0x21da9a9b, 0xb0fa238e, 0xc0645fde, 0x846ee454, 0x8034229c, 0x07590dcd, 0x0b92f20c),
      Working(0xfe777bbf, 0xc2fbd9d1, 0x21da9a9b, 0xb0fa238e, 0xcc899961, 0x846ee454, 0x8034229c, 0x07590dcd));
  }

  lemma AbcRounds20()
    ensures Rounds(Load(H0), AbcSchedule[..20]) ==
      Working(0xe1f20c33, 0xfe777bbf, 0xc2fbd9d1, 0x21da9a9b, 0xb0638179, 0xcc899961, 0x846ee454, 0x8034229c)
  {
    AbcRounds19();
    assert K[19] == 0x240ca1cc && AbcSchedule[19] == 0x600003c6;
    RoundsNext(Load(H0), AbcSchedule, 19,
      Working(0xfe777bbf, 0xc2fbd9d1, 0x21da9a9b, 0xb0fa238e, 0xcc899961, 0x846ee454, 0x8034229c, 0x07590dcd),
      Working(0xe1f20c33, 0xfe777bbf, 0xc2fbd9d1, 0x21da9a9b, 0xb0638179, 0xcc899961, 0x846ee454, 0x8034229c));
  }

  lemma AbcRounds21()
    ensures Rounds(Load(H0), AbcSchedule[..21]) ==
      Working(0x9dc68b63, 0xe1f20c33, 0xfe777bbf, 0xc2fbd9d1, 0x8ada8930, 0xb0638179, 0xcc899961, 0x846ee454)
  {
    AbcRounds20();
    assert K[20] == 0x2de92c6f && AbcSchedule[20] == 0x3e9d7b78;
    RoundsNext(Load(H0), AbcSchedule, 20,
      Working(0xe1f20c33, 0xfe777bbf, 0xc2fbd9d1, 0x21da9a9b, 0xb0638179, 0xcc899961, 0x846ee454, 0x8034229c),
      Working(0x9dc68b63, 0xe1f20c33, 0xfe777bbf, 0xc2fbd9d1, 0x8ada8930, 0xb0638179, 0xcc899961, 0x846ee454));
  }

  lemma AbcRounds22()
    ensures Rounds(Load(H0), AbcSchedule[..22]) ==
      Working(0xc2606d6d, 0x9dc68b63, 0xe1f20c33, 0xfe777bbf, 0xe1257970, 0x8ada8930, 0xb0638179, 0xcc899961)
  {
    AbcRounds21();
    assert K[21] == 0x4a7484aa && AbcSchedule[21] == 0x0183fc00;
    RoundsNext(Load(H0), AbcSchedule, 21,
      Working(0x9dc68b63, 0xe1f20c33, 0xfe777bbf, 0xc2fbd9d1, 0x8ada8930, 0xb0638179, 0xcc899961, 0x846ee454),
      Working(0xc2606d6d, 0x9dc68b63, 0xe1f20c33, 0xfe777bbf, 0xe1257970, 0x8ada8930, 0xb0638179, 0xcc899961));
  }

  lemma AbcRounds23()
    ensures Rounds(Load(H0), AbcSchedule[..23]) ==
      Working(0xa7a3623f, 0xc2606d6d, 0x9dc68b63, 0xe1f20c33, 0x49f5114a, 0xe1257970, 0x8ada8930, 0xb0638179)
  {
    AbcRounds22();
    assert K[22] == 0x5cb0a9dc && AbcSchedule[22] == 0x12dcbfdb;
    RoundsNext(Load(H0), AbcSchedule, 22,
      Working(0xc2606d6d, 0x9dc68b63, 0xe1f20c33, 0xfe777bbf, 0xe1257970, 0x8ada8930, 0xb0638179, 0xcc899961),
      Working(0xa7a3623f, 0xc2606d6d, 0x9dc68b63, 0xe1f20c33, 0x49f5114a, 0xe1257970, 0x8ada8930, 0xb0638179));
  }

  lemma AbcRounds24()
    ensures Rounds(Load(H0), AbcSchedule[..24]) ==
      Working(0xc5d53d8d, 0xa7a3623f, 0xc2606d6d, 0x9dc68b63, 0xaa47c347, 0x49f5114a, 0xe1257970, 0x8ada8930)
  {
    AbcRounds23();
    assert K[23] == 0x76f988da && AbcSchedule[23] == 0xe2e2c38e;
    RoundsNext(Load(H0), AbcSchedule, 23,
      Working(0xa7a3623f, 0xc2606d6d, 0x9dc68b63, 0xe1f20c33, 0x49f5114a, 0xe1257970, 0x8ada8930, 0xb0638179),
      Working(0xc5d53d8d, 0xa7a3623f, 0xc2606d6d, 0x9dc68b63, 0xaa47c347, 0x49f5114a, 0xe1257970, 0x8ada8930));
  }

  lemma AbcRounds25()
    ensures Rounds(Load(H0), AbcSchedule[..25]) ==
      Working(0x1c2c2838, 0xc5d53d8d, 0xa7a3623f, 0xc2606d6d, 0x2823ef91, 0xaa47c347, 0x49f5114a, 0xe1257970)
  {
    AbcRounds24();
    assert K[24] == 0x983e5152 && AbcSchedule[24] == 0xc8215c1a;
    RoundsNext(Load(H0), AbcSchedule, 24,
      Working(0xc5d53d8d, 0xa7a3623f, 0xc2606d6d, 0x9dc68b63, 0xaa47c347, 0x49f5114a, 0xe1257970, 0x8ada8930),
      Working(0x1c2c2838, 0xc5d53d8d, 0xa7a3623f, 0xc2606d6d, 0x2823ef91, 0xaa47c347, 0x49f5114a, 0xe1257970));
  }

  lemma AbcRounds26()
    ensures Rounds(Load(H0), AbcSchedule[..26]) ==
      Working(0xcde8037d, 0x1c2c2838, 0xc5d53d8d, 0xa7a3623f, 0x14383d8e, 0x2823ef91, 0xaa47c347, 0x49f5114a)
  {
    AbcRounds25();
    assert K[25] == 0xa831c66d && AbcSchedule[25] == 0xb73679a2;
    RoundsNext(Load(H0), AbcSchedule, 25,
      Working(0x1c2c2838, 0xc5d53d8d, 0xa7a3623f, 0xc2606d6d, 0x2823ef91, 0xaa47c347, 0x49f5114a, 0xe1257970),
      Working(0xcde8037d, 0x1c2c2838, 0xc5d53d8d, 0xa7a3623f, 0x14383d8e, 0x2823ef91, 0xaa47c347, 0x49f5114a));
  }

  lemma AbcRounds27()
    ensures Rounds(Load(H0), AbcSchedule[..27]) ==
      Working(0xb62ec4bc, 0xcde8037d, 0x1c2c2838, 0xc5d53d8d, 0xc74c6516, 0x14383d8e, 0x2823ef91, 0xaa47c347)
  {
    AbcRounds26();
    assert K[26] == 0xb00327c8 && AbcSchedule[26] == 0xe5bc3909;
    RoundsNext(Load(H0), AbcSchedule, 26,
      Working(0xcde8037d, 0x1c2c2838, 0xc5d53d8d, 0xa7a3623f, 0x14383d8e, 0x2823ef91, 0xaa47c347, 0x49f5114a),
      Working(0xb62ec4bc, 0xcde8037d, 0x1c2c2838, 0xc5d53d8d, 0xc74c6516, 0x14383d8e, 0x2823ef91, 0xaa47c347));
  }

  lemma AbcRounds28()
    ensures Rounds(Load(H0), AbcSchedule[..28]) ==
      Working(0x77d37528, 0xb62ec4bc, 0xcde8037d, 0x1c2c2838, 0xedffbff8, 0xc74c6516, 0x14383d8e, 0x2823ef91)
  {
    AbcRounds27();
    assert K[27] == 0xbf597fc7 && AbcSchedule[27] == 0x32663c5b;
    RoundsNext(Load(H0), AbcSchedule, 27,
      Working(0xb62ec4bc, 0xcde8037d, 0x1c2c2838, 0xc5d53d8d, 0xc74c6516, 0x14383d8e, 0x2823ef91, 0xaa47c347),
      Working(0x77d37528, 0xb62ec4bc, 0xcde8037d, 0x1c2c2838, 0xedffbff8, 0xc74c6516, 0x14383d8e, 0x2823ef91));
  }

  lemma AbcRounds29()
    ensures Rounds(Load(H0), AbcSchedule[..29]) ==
      Working(0x363482c9, 0x77d37528, 0xb62ec4bc, 0xcde8037d, 0x6112a3b7, 0xedffbff8, 0xc74c6516, 0x14383d8e)
  {
    AbcRounds28();
    assert K[28] == 0xc6e00bf3 && AbcSchedule[28] == 0x9d209d67;
    RoundsNext(Load(H0), AbcSchedule, 28,
      Working(0x77d37528, 0xb62ec4bc, 0xcde8037d, 0x1c2c2838, 0xedffbff8, 0xc74c6516, 0x14383d8e, 0x2823ef91),
      Working(0x363482c9, 0x77d37528, 0xb62ec4bc, 0xcde8037d, 0x6112a3b7, 0xedffbff8, 0xc74c6516, 0x14383d8e));
  }

  lemma AbcRounds30()
    ensures Rounds(Load(H0), AbcSchedule[..30]) ==
      Working(0xa0060b30, 0x363482c9, 0x77d37528, 0xb62ec4bc, 0xade79437, 0x6112a3b7, 0xedffbff8, 0xc74c6516)
  {
    AbcRounds29();
    assert K[29] == 0xd5a79147 && AbcSchedule[29] == 0xec8726cb;
    RoundsNext(Load(H0), AbcSchedule, 29,
      Working(0x363482c9, 0x77d37528, 0xb62ec4bc, 0xcde8037d, 0x6112a3b7, 0xedffbff8, 0xc74c6516, 0x14383d8e),
      Working(0xa0060b30, 0x363482c9, 0x77d37528, 0xb62ec4bc, 0xade79437, 0x6112a3b7, 0xedffbff8, 0xc74c6516));
  }

  lemma AbcRounds31()
    ensures Rounds(Load(H0), AbcSchedule[..31]) ==
      Working(0xea992a22, 0xa0060b30, 0x363482c9, 0x77d37528, 0x0109ab3a, 0xade79437, 0x6112a3b7, 0xedffbff8)
  {
    AbcRounds30();
    assert K[30] == 0x06ca6351 && AbcSchedule[30] == 0x702138a4;
    RoundsNext(Load(H0), AbcSchedule, 30,
      Working(0xa0060b30, 0x363482c9, 0x77d37528, 0xb62ec4bc, 0xade79437, 0x6112a3b7, 0xedffbff8, 0xc74c6516),
      Working(0xea992a22, 0xa0060b30, 0x363482c9, 0x77d37528, 0x0109ab3a, 0xade79437, 0x6112a3b7, 0xedffbff8));
  }

  lemma AbcRounds32()
    ensures Rounds(Load(H0), AbcSchedule[..32]) ==
      Working(0x73b33bf5, 0xea992a22, 0xa0060b30, 0x363482c9, 0xba591112, 0x0109ab3a, 0xade79437, 0x6112a3b7)
  {
    AbcRounds31();
    assert K[31] == 0x14292967 && AbcSchedule[31] == 0xd3b7973b;
    RoundsNext(Load(H0), AbcSchedule, 31,
      Working(0xea992a22, 0xa0060b30, 0x363482c9, 0x77d37528, 0x0109ab3a, 0xade79437, 0x6112a3b7, 0xedffbff8),
      Working(0x73b33bf5, 0xea992a22, 0xa0060b30, 0x363482c9, 0xba591112, 0x0109ab3a, 0xade79437, 0x6112a3b7));
  }

  lemma AbcRounds33()
    ensures Rounds(Load(H0), AbcSchedule[..33]) ==
      Working(0x98e12507, 0x73b33bf5, 0xea992a22, 0xa0060b30, 0x9cd9f5f6, 0xba591112, 0x0109ab3a, 0xade79437)
  {
    AbcRounds32();
    assert K[32] == 0x27b70a85 && AbcSchedule[32] == 0x93f5997f;
    RoundsNext(Load(H0), AbcSchedule, 32,
      Working(0x73b33bf5, 0xea992a22, 0xa0060b30, 0x363482c9, 0xba591112, 0x0109ab3a, 0xade79437, 0x6112a3b7),
      Working(0x98e12507, 0x73b33bf5, 0xea992a22, 0xa0060b30, 0x9cd9f5f6, 0xba591112, 0x0109ab3a, 0xade79437));
  }

  lemma AbcRounds34()
    ensures Rounds(Load(H0), AbcSchedule[..34]) ==
      Working(0xfe604df5, 0x98e12507, 0x73b33bf5, 0xea992a22, 0x59249dd3, 0x9cd9f5f6, 0xba591112, 0x0109ab3a)
  {
    AbcRounds33();
    assert K[33] == 0x2e1b2138 && AbcSchedule[33] == 0x3b68ba73;
    RoundsNext(Load(H0), AbcSchedule, 33,
      Working(0x98e12507, 0x73b33bf5, 0xea992a22, 0xa0060b30, 0x9cd9f5f6, 0xba591112, 0x0109ab3a, 0xade79437),
      Working(0xfe604df5, 0x98e12507, 0x73b33bf5, 0xea992a22, 0x59249dd3, 0x9cd9f5f6, 0xba591112, 0x0109ab3a));
  }

  lemma AbcRounds35()
    ensures Rounds(Load(H0), AbcSchedule[..35]) ==
      Working(0xa9a7738c, 0xfe604df5, 0x98e12507, 0x73b33bf5, 0x085f3833, 0x59249dd3, 0x9cd9f5f6, 0xba591112)
  {
    AbcRounds34();
    assert K[34] == 0x4d2c6dfc && AbcSchedule[34] == 0xaff4ffc1;
    RoundsNext(Load(H0), AbcSchedule, 34,
      Working(0xfe604df5, 0x98e12507, 0x73b33bf5, 0xea992a22, 0x59249dd3, 0x9cd9f5f6, 0xba591112, 0x0109ab3a),
      Working(0xa9a7738c, 0xfe604df5, 0x98e12507, 0x73b33bf5, 0x085f3833, 0x59249dd3, 0x9cd9f5f6, 0xba591112));
  }

  lemma AbcRounds36()
    ensures Rounds(Load(H0), AbcSchedule[..36]) ==
      Working(0x65a0cfe4, 0xa9a7738c, 0xfe604df5, 0x98e12507, 0xf4b002d6, 0x085f3833, 0x59249dd3, 0x9cd9f5f6)
  {
    AbcRounds35();
    assert K[35] == 0x53380d13 && AbcSchedule[35] == 0xf10a5c62;
    RoundsNext(Load(H0), AbcSchedule, 35,
      Working(0xa9a7738c, 0xfe604df5, 0x98e12507, 0x73b33bf5, 0x085f3833, 0x59249dd3, 0x9cd9f5f6, 0xba591112),
      Working(0x65a0cfe4, 0xa9a7738c, 0xfe604df5, 0x98e12507, 0xf4b002d6, 0x085f3833, 0x59249dd3, 0x9cd9f5f6));
  }

  lemma AbcRounds37()
    ensures Rounds(Load(H0), AbcSchedule[..37]) ==
      Working(0x41a65cb1, 0x65a0cfe4, 0xa9a7738c, 0xfe604df5, 0x0772a26b, 0xf4b002d6, 0x085f3833, 0x59249dd3)
  {
    AbcRounds36();
    assert K[36] == 0x650a7354 && AbcSchedule[36] == 0x0a8b3996;
    RoundsNext(Load(H0), AbcSchedule, 36,
      Working(0x65a0cfe4, 0xa9a7738c, 0xfe604df5, 0x98e12507, 0xf4b002d6, 0x085f3833, 0x59249dd3, 0x9cd9f5f6),
      Working(0x41a65cb1, 0x65a0cfe4, 0xa9a7738c, 0xfe604df5, 0x0772a26b, 0xf4b002d6, 0x085f3833, 0x59249dd3));
  }

  lemma AbcRounds38()
    ensures Rounds(Load(H0), AbcSchedule[..38]) ==
      Working(0x34df1604, 0x41a65cb1, 0x65a0cfe4, 0xa9a7738c, 0xa507a53d, 0x0772a26b, 0xf4b002d6, 0x085f3833)
  {
    AbcRounds37();
    assert K[37] == 0x766a0abb && AbcSchedule[37] == 0x72af830a;
    RoundsNext(Load(H0), AbcSchedule, 37,
      Working(0x41a65cb1, 0x65a0cfe4, 0xa9a7738c, 0xfe604df5, 0x0772a26b, 0xf4b002d6, 0x085f3833, 0x59249dd3),
      Working(0x34df1604, 0x41a65cb1, 0x65a0cfe4, 0xa9a7738c, 0xa507a53d, 0x0772a26b, 0xf4b002d6, 0x085f3833));
  }

  lemma AbcRounds39()
    ensures Rounds(Load(H0), AbcSchedule[..39]) ==
      Working(0x6dc57a8a, 0x34df1604, 0x41a65cb1, 0x65a0cfe4, 0xf0781bc8, 0xa507a53d, 0x0772a26b, 0xf4b002d6)
  {
    AbcRounds38();
    assert K[38] == 0x81c2c92e && AbcSchedule[38] == 0x9409e33e;
    RoundsNext(Load(H0), AbcSchedule, 38,
      Working(0x34df1604, 0x41a65cb1, 0x65a0cfe4, 0xa9a7738c, 0xa507a53d, 0x0772a26b, 0xf4b002d6, 0x085f3833),
      Working(0x6dc57a8a, 0x34df1604, 0x41a65cb1, 0x65a0cfe4, 0xf0781bc8, 0xa507a53d, 0x0772a26b, 0xf4b002d6));
  }

  lemma AbcRounds40()
    ensures Rounds(Load(H0), AbcSchedule[..40]) ==
      Working(0x79ea687a, 0x6dc57a8a, 0x34df1604, 0x41a65cb1, 0x1efbc0a0, 0xf0781bc8, 0xa507a53d, 0x0772a26b)
  {
    AbcRounds39();
    assert K[39] == 0x92722c85 && AbcSchedule[39] == 0x24641522;
    RoundsNext(Load(H0), AbcSchedule, 39,
      Working(0x6dc57a8a, 0x34df1604, 0x41a65cb1, 0x65a0cfe4, 0xf0781bc8, 0xa507a53d, 0x0772a26b, 0xf4b002d6),
      Working(0x79ea687a, 0x6dc57a8a, 0x34df1604, 0x41a65cb1, 0x1efbc0a0, 0xf0781bc8, 0xa507a53d, 0x0772a26b));
  }

  lemma AbcRounds41()
    ensures Rounds(Load(H0), AbcSchedule[..41]) ==
      Working(0xd6670766, 0x79ea687a, 0x6dc57a8a, 0x34df1604, 0x26352d63, 0x1efbc0a0, 0xf0781bc8, 0xa507a53d)
  {
    AbcRounds40();
    assert K[40] == 0xa2bfe8a1 && AbcSchedule[40] == 0x9f47bf94;
    RoundsNext(Load(H0), AbcSchedule, 40,
      Working(0x79ea687a, 0x6dc57a8a, 0x34df1604, 0x41a65cb1, 0x1efbc0a0, 0xf0781bc8, 0xa507a53d, 0x0772a26b),
      Working(0xd6670766, 0x79ea687a, 0x6dc57a8a, 0x34df1604, 0x26352d63, 0x1efbc0a0, 0xf0781bc8, 0xa507a53d));
  }

  lemma AbcRounds42()
    ensures Rounds(Load(H0), AbcSchedule[..42]) ==
      Working(0xdf46652f, 0xd6670766, 0x79ea687a, 0x6dc57a8a, 0x838b2711, 0x26352d63, 0x1efbc0a0, 0xf0781bc8)
  {
    AbcRounds41();
    assert K[41] == 0xa81a664b && AbcSchedule[41] == 0xf0a64f5a;
    RoundsNext(Load(H0), AbcSchedule, 41,
      Working(0xd6670766, 0x79ea687a, 0x6dc57a8a, 0x34df1604, 0x26352d63, 0x1efbc0a0, 0xf0781bc8, 0xa507a53d),
      Working(0xdf46652f, 0xd6670766, 0x79ea687a, 0x6dc57a8a, 0x838b2711, 0x26352d63, 0x1efbc0a0, 0xf0781bc8));
  }

  lemma AbcRounds43()
    ensures Rounds(Load(H0), AbcSchedule[..43]) ==
      Working(0x17aa0dfe, 0xdf46652f, 0xd6670766, 0x79ea687a, 0xdecd4715, 0x838b2711, 0x26352d63, 0x1efbc0a0)
  {
    AbcRounds42();
    assert K[42] == 0xc24b8b70 && AbcSchedule[42] == 0x3e246a79;
    RoundsNext(Load(H0), AbcSchedule, 42,
      Working(0xdf46652f, 0xd6670766, 0x79ea687a, 0x6dc57a8a, 0x838b2711, 0x26352d63, 0x1efbc0a0, 0xf0781bc8),
      Working(0x17aa0dfe, 0xdf46652f, 0xd6670766, 0x79ea687a, 0xdecd4715, 0x838b2711, 0x26352d63, 0x1efbc0a0));
  }

  lemma AbcRounds44()
    ensures Rounds(Load(H0), AbcSchedule[..44]) ==
      Working(0x9d4baf93, 0x17aa0dfe, 0xdf46652f, 0xd6670766, 0xfda24c2e, 0xdecd4715, 0x838b2711, 0x26352d63)
  {
    AbcRounds43();
    assert K[43] == 0xc76c51a3 && AbcSchedule[43] == 0x27333ba3;
    RoundsNext(Load(H0), AbcSchedule, 43,
      Working(0x17aa0dfe, 0xdf46652f, 0xd6670766, 0x79ea687a, 0xdecd4715, 0x838b2711, 0x26352d63, 0x1efbc0a0),
      Working(0x9d4baf93, 0x17aa0dfe, 0xdf46652f, 0xd6670766, 0xfda24c2e, 0xdecd4715, 0x838b2711, 0x26352d63));
  }

  lemma AbcRounds45()
    ensures Rounds(Load(H0), AbcSchedule[..45]) ==
      Working(0x26628815, 0x9d4baf93, 0x17aa0dfe, 0xdf46652f, 0xa80f11f0, 0xfda24c2e, 0xdecd4715, 0x838b2711)
  {
    AbcRounds44();
    assert K[44] == 0xd192e819 && AbcSchedule[44] == 0x0c4763f2;
    RoundsNext(Load(H0), AbcSchedule, 44,
      Working(0x9d4baf93, 0x17aa0dfe, 0xdf46652f, 0xd6670766, 0xfda24c2e, 0xdecd4715, 0x838b2711, 0x26352d63),
      Working(0x26628815, 0x9d4baf93, 0x17aa0dfe, 0xdf46652f, 0xa80f11f0, 0xfda24c2e, 0xdecd4715, 0x838b2711));
  }

  lemma AbcRounds46()
    ensures Rounds(Load(H0), AbcSchedule[..46]) ==
      Working(0x72ab4b91, 0x26628815, 0x9d4baf93, 0x17aa0dfe, 0xb7755da1, 0xa80f11f0, 0xfda24c2e, 0xdecd4715)
  {
    AbcRounds45();
    assert K[45] == 0xd6990624 && AbcSchedule[45] == 0x840abf27;
    RoundsNext(Load(H0), AbcSchedule, 45,
      Working(0x26628815, 0x9d4baf93, 0x17aa0dfe, 0xdf46652f, 0xa80f11f0, 0xfda24c2e, 0xdecd4715, 0x838b2711),
      Working(0x72ab4b91, 0x26628815, 0x9d4baf93, 0x17aa0dfe, 0xb7755da1, 0xa80f11f0, 0xfda24c2e, 0xdecd4715));
  }

  lemma AbcRounds47()
    ensures Rounds(Load(H0), AbcSchedule[..47]) ==
      Working(0xa14c14b0, 0x72ab4b91, 0x26628815, 0x9d4baf93, 0xd57b94a9, 0xb7755da1, 0xa80f11f0, 0xfda24c2e)
  {
    AbcRounds46();
    assert K[46] == 0xf40e3585 && AbcSchedule[46] == 0x7a290d5d;
    RoundsNext(Load(H0), AbcSchedule, 46,
      Working(0x72ab4b91, 0x26628815, 0x9d4baf93, 0x17aa0dfe, 0xb7755da1, 0xa80f11f0, 0xfda24c2e, 0xdecd4715),
      Working(0xa14c14b0, 0x72ab4b91, 0x26628815, 0x9d4baf93, 0xd57b94a9, 0xb7755da1, 0xa80f11f0, 0xfda24c2e));
  }

  lemma AbcRounds48()
    ensures Rounds(Load(H0), AbcSchedule[..48]) ==
      Working(0x4172328d, 0xa14c14b0, 0x72ab4b91, 0x26628815, 0xfecf0bc6, 0xd57b94a9, 0xb7755da1, 0xa80f11f0)
  {
    AbcRounds47();
    assert K[47] == 0x106aa070 && AbcSchedule[47] == 0x065c43da;
    RoundsNext(Load(H0), AbcSchedule, 47,
      Working(0xa14c14b0, 0x72ab4b91, 0x26628815, 0x9d4baf93, 0xd57b94a9, 0xb7755da1, 0xa80f11f0, 0xfda24c2e),
      Working(0x4172328d, 0xa14c14b0, 0x72ab4b91, 0x26628815, 0xfecf0bc6, 0xd57b94a9, 0xb7755da1, 0xa80f11f0));
  }

  lemma AbcRounds49()
    ensures Rounds(Load(H0), AbcSchedule[..49]) ==
      Working(0x05757ceb, 0x4172328d, 0xa14c14b0, 0x72ab4b91, 0xbd714038, 0xfecf0bc6, 0xd57b94a9, 0xb7755da1)
  {
    AbcRounds48();
    assert K[48] == 0x19a4c116 && AbcSchedule[48] == 0xfb3e89cb;
    RoundsNext(Load(H0), AbcSchedule, 48,
      Working(0x4172328d, 0xa14c14b0, 0x72ab4b91, 0x26628815, 0xfecf0bc6, 0xd57b94a9, 0xb7755da1, 0xa80f11f0),
      Working(0x05757ceb, 0x4172328d, 0xa14c14b0, 0x72ab4b91, 0xbd714038, 0xfecf0bc6, 0xd57b94a9, 0xb7755da1));
  }

  lemma AbcRounds50()
    ensures Rounds(Load(H0), AbcSchedule[..50]) ==
      Working(0xf11bfaa8, 0x05757ceb, 0x4172328d, 0xa14c14b0, 0x6e5c390c, 0xbd714038, 0xfecf0bc6, 0xd57b94a9)
  {
    AbcRounds49();
    assert K[49] == 0x1e376c08 && AbcSchedule[49] == 0xcc7617db;
    RoundsNext(Load(H0), AbcSchedule, 49,
      Working(0x05757ceb, 0x4172328d, 0xa14c14b0, 0x72ab4b91, 0xbd714038, 0xfecf0bc6, 0xd57b94a9, 0xb7755da1),
      Working(0xf11bfaa8, 0x05757ceb, 0x4172328d, 0xa14c14b0, 0x6e5c390c, 0xbd714038, 0xfecf0bc6, 0xd57b94a9));
  }

  lemma AbcRounds51()
    ensures Rounds(Load(H0), AbcSchedule[..51]) ==
      Working(0x7a0508a1, 0xf11bfaa8, 0x05757ceb, 0x4172328d, 0x52f1ccf7, 0x6e5c390c, 0xbd714038, 0xfecf0bc6)
  {
    AbcRounds50();
    assert K[50] == 0x2748774c && AbcSchedule[50] == 0xb9e66c34;
    RoundsNext(Load(H0), AbcSchedule, 50,
      Working(0xf11bfaa8, 0x05757ceb, 0x4172328d, 0xa14c14b0, 0x6e5c390c, 0xbd714038, 0xfecf0bc6, 0xd57b94a9),
      Working(0x7a0508a1, 0xf11bfaa8, 0x05757ceb, 0x4172328d, 0x52f1ccf7, 0x6e5c390c, 0xbd714038, 0xfecf0bc6));
  }

  lemma AbcRounds52()
    ensures Rounds(Load(H0), AbcSchedule[..52]) ==
      Working(0x886e7a22, 0x7a0508a1, 0xf11bfaa8, 0x05757ceb, 0x49231c1e, 0x52f1ccf7, 0x6e5c390c, 0xbd714038)
  {
    AbcRounds51();
    assert K[51] == 0x34b0bcb5 && AbcSchedule[51] == 0xa9993667;
    RoundsNext(Load(H0), AbcSchedule, 51,
      Working(0x7a0508a1, 0xf11bfaa8, 0x05757ceb, 0x4172328d, 0x52f1ccf7, 0x6e5c390c, 0xbd714038, 0xfecf0bc6),
      Working(0x886e7a22, 0x7a0508a1, 0xf11bfaa8, 0x05757ceb, 0x49231c1e, 0x52f1ccf7, 0x6e5c390c, 0xbd714038));
  }

  lemma AbcRounds53()
    ensures Rounds(Load(H0), AbcSchedule[..53]) ==
      Working(0x101fd28f, 0x886e7a22, 0x7a0508a1, 0xf11bfaa8, 0x529e7d00, 0x49231c1e, 0x52f1ccf7, 0x6e5c390c)
  {
    AbcRounds52();
    assert K[52] == 0x391c0cb3 && AbcSchedule[52] == 0x84badedd;
    RoundsNext(Load(H0), AbcSchedule, 52,
      Working(0x886e7a22, 0x7a0508a1, 0xf11bfaa8, 0x05757ceb, 0x49231c1e, 0x52f1ccf7, 0x6e5c390c, 0xbd714038),
      Working(0x101fd28f, 0x886e7a22, 0x7a0508a1, 0xf11bfaa8, 0x529e7d00, 0x49231c1e, 0x52f1ccf7, 0x6e5c390c));
  }

  lemma AbcRounds54()
    ensures Rounds(Load(H0), AbcSchedule[..54]) ==
      Working(0xf5702fdb, 0x101fd28f, 0x886e7a22, 0x7a0508a1, 0x9f4787c3, 0x529e7d00, 0x49231c1e, 0x52f1ccf7)
  {
    AbcRounds53();
    assert K[53] == 0x4ed8aa4a && AbcSchedule[53] == 0xc21462bc;
    RoundsNext(Load(H0), AbcSchedule, 53,
      Working(0x101fd28f, 0x886e7a22, 0x7a0508a1, 0xf11bfaa8, 0x529e7d00, 0x49231c1e, 0x52f1ccf7, 0x6e5c390c),
      Working(0xf5702fdb, 0x101fd28f, 0x886e7a22, 0x7a0508a1, 0x9f4787c3, 0x529e7d00, 0x49231c1e, 0x52f1ccf7));
  }

  lemma AbcRounds55()
    ensures Rounds(Load(H0), AbcSchedule[..55]) ==
      Working(0x3ec45cdb, 0xf5702fdb, 0x101fd28f, 0x886e7a22, 0xe50e1b4f, 0x9f4787c3, 0x529e7d00, 0x49231c1e)
  {
    AbcRounds54();
    assert K[54] == 0x5b9cca4f && AbcSchedule[54] == 0x1487472c;
    RoundsNext(Load(H0), AbcSchedule, 54,
      Working(0xf5702fdb, 0x101fd28f, 0x886e7a22, 0x7a0508a1, 0x9f4787c3, 0x529e7d00, 0x49231c1e, 0x52f1ccf7),
      Working(0x3ec45cdb, 0xf5702fdb, 0x101fd28f, 0x886e7a22, 0xe50e1b4f, 0x9f4787c3, 0x529e7d00, 0x49231c1e));
  }

  lemma AbcRounds56()
    ensures Rounds(Load(H0), AbcSchedule[..56]) ==
      Working(0x38cc9913, 0x3ec45cdb, 0xf5702fdb, 0x101fd28f, 0x54cb266b, 0xe50e1b4f, 0x9f4787c3, 0x529e7d00)
  {
    AbcRounds55();
    assert K[55] == 0x682e6ff3 && AbcSchedule[55] == 0xb20f7a99;
    RoundsNext(Load(H0), AbcSchedule, 55,
      Working(0x3ec45cdb, 0xf5702fdb, 0x101fd28f, 0x886e7a22, 0xe50e1b4f, 0x9f4787c3, 0x529e7d00, 0x49231c1e),
      Working(0x38cc9913, 0x3ec45cdb, 0xf5702fdb, 0x101fd28f, 0x54cb266b, 0xe50e1b4f, 0x9f4787c3, 0x529e7d00));
  }

  lemma AbcRounds57()
    ensures Rounds(Load(H0), AbcSchedule[..57]) ==
      Working(0xfcd1887b, 0x38cc9913, 0x3ec45cdb, 0xf5702fdb, 0x9b5e906c, 0x54cb266b, 0xe50e1b4f, 0x9f4787c3)
  {
    AbcRounds56();
    assert K[56] == 0x748f82ee && AbcSchedule[56] == 0xef57b9cd;
    RoundsNext(Load(H0), AbcSchedule, 56,
      Working(0x38cc9913, 0x3ec45cdb, 0xf5702fdb, 0x101fd28f, 0x54cb266b, 0xe50e1b4f, 0x9f4787c3, 0x529e7d00),
      Working(0xfcd1887b, 0x38cc9913, 0x3ec45cdb, 0xf5702fdb, 0x9b5e906c, 0x54cb266b, 0xe50e1b4f, 0x9f4787c3));
  }

  lemma AbcRounds58()
    ensures Rounds(Load(H0), AbcSchedule[..58]) ==
      Working(0xc062d46f, 0xfcd1887b, 0x38cc9913, 0x3ec45cdb, 0x7e44008e, 0x9b5e906c, 0x54cb266b, 0xe50e1b4f)
  {
    AbcRounds57();
    assert K[57] == 0x78a5636f && AbcSchedule[57] == 0xebe6b238;
    RoundsNext(Load(H0), AbcSchedule, 57,
      Working(0xfcd1887b, 0x38cc9913, 0x3ec45cdb, 0xf5702fdb, 0x9b5e906c, 0x54cb266b, 0xe50e1b4f, 0x9f4787c3),
      Working(0xc062d46f, 0xfcd1887b, 0x38cc9913, 0x3ec45cdb, 0x7e44008e, 0x9b5e906c, 0x54cb266b, 0xe50e1b4f));
  }

  lemma AbcRounds59()
    ensures Rounds(Load(H0), AbcSchedule[..59]) ==
      Working(0xffb70472, 0xc062d46f, 0xfcd1887b, 0x38cc9913, 0x6d83bfc6, 0x7e44008e, 0x9b5e906c, 0x54cb266b)
  {
    AbcRounds58();
    assert K[58] == 0x84c87814 && AbcSchedule[58] == 0x9fe3095e;
    RoundsNext(Load(H0), AbcSchedule, 58,
      Working(0xc062d46f, 0xfcd1887b, 0x38cc9913, 0x3ec45cdb, 0x7e44008e, 0x9b5e906c, 0x54cb266b, 0xe50e1b4f),
      Working(0xffb70472, 0xc062d46f, 0xfcd1887b, 0x38cc9913, 0x6d83bfc6, 0x7e44008e, 0x9b5e906c, 0x54cb266b));
  }

  lemma AbcRounds60()
    ensures Rounds(Load(H0), AbcSchedule[..60]) ==
      Working(0xb6ae8fff, 0xffb70472, 0xc062d46f, 0xfcd1887b, 0xb21bad3d, 0x6d83bfc6, 0x7e44008e, 0x9b5e906c)
  {
    AbcRounds59();
    assert K[59] == 0x8cc70208 && AbcSchedule[59] == 0x78bc8d4b;
    RoundsNext(Load(H0), AbcSchedule, 59,
      Working(0xffb70472, 0xc062d46f, 0xfcd1887b, 0x38cc9913, 0x6d83bfc6, 0x7e44008e, 0x9b5e906c, 0x54cb266b),
      Working(0xb6ae8fff, 0xffb70472, 0xc062d46f, 0xfcd1887b, 0xb21bad3d, 0x6d83bfc6, 0x7e44008e, 0x9b5e906c));
  }

  lemma AbcRounds61()
    ensures Rounds(Load(H0), AbcSchedule[..61]) ==
      Working(0xb85e2ce9, 0xb6ae8fff, 0xffb70472, 0xc062d46f, 0x961f4894, 0xb21bad3d, 0x6d83bfc6, 0x7e44008e)
  {
    AbcRounds60();
    assert K[60] == 0x90befffa && AbcSchedule[60] == 0xa43fcf15;
    RoundsNext(Load(H0), AbcSchedule, 60,
      Working(0xb6ae8fff, 0xffb70472, 0xc062d46f, 0xfcd1887b, 0xb21bad3d, 0x6d83bfc6, 0x7e44008e, 0x9b5e906c),
      Working(0xb85e2ce9, 0xb6ae8fff, 0xffb70472, 0xc062d46f, 0x961f4894, 0xb21bad3d, 0x6d83bfc6, 0x7e44008e));
  }

  lemma AbcRounds62()
    ensures Rounds(Load(H0), AbcSchedule[..62]) ==
      Working(0x04d24d6c, 0xb85e2ce9, 0xb6ae8fff, 0xffb70472, 0x948d25b6, 0x961f4894, 0xb21bad3d, 0x6d83bfc6)
  {
    AbcRounds61();
    assert K[61] == 0xa4506ceb && AbcSchedule[61] == 0x668b2ff8;
    RoundsNext(Load(H0), AbcSchedule, 61,
      Working(0xb85e2ce9, 0xb6ae8fff, 0xffb70472, 0xc062d46f, 0x961f4894, 0xb21bad3d, 0x6d83bfc6, 0x7e44008e),
      Working(0x04d24d6c, 0xb85e2ce9, 0xb6ae8fff, 0xffb70472, 0x948d25b6, 0x961f4894, 0xb21bad3d, 0x6d83bfc6));
  }

  lemma AbcRounds63()
    ensures Rounds(Load(H0), AbcSchedule[..63]) ==
      Working(0xd39a2165, 0x04d24d6c, 0xb85e2ce9, 0xb6ae8fff, 0xfb121210, 0x948d25b6, 0x961f4894, 0xb21bad3d)
  {
    AbcRounds62();
    assert K[62] == 0xbef9a3f7 && AbcSchedule[62] == 0xeeaba2cc;
    RoundsNext(Load(H0), AbcSchedule, 62,
      Working(0x04d24d6c, 0xb85e2ce9, 0xb6ae8fff, 0xffb70472, 0x948d25b6, 0x961f4894, 0xb21bad3d, 0x6d83bfc6),
      Working(0xd39a2165, 0x04d24d6c, 0xb85e2ce9, 0xb6ae8fff, 0xfb121210, 0x948d25b6, 0x961f4894, 0xb21bad3d));
  }

  lemma AbcRounds64()
    ensures Rounds(Load(H0), AbcSchedule[..64]) ==
      Working(0x506e3058, 0xd39a2165, 0x04d24d6c, 0xb85e2ce9, 0x5ef50f24, 0xfb121210, 0x948d25b6, 0x961f4894)
  {
    AbcRounds63();
    assert K[63] == 0xc67178f2 && AbcSchedule[63] == 0x12b1edeb;
    RoundsNext(Load(H0), AbcSchedule, 63,
      Working(0xd39a2165, 0x04d24d6c, 0xb85e2ce9, 0xb6ae8fff, 0xfb121210, 0x948d25b6, 0x961f4894, 0xb21bad3d),
      Working(0x506e3058, 0xd39a2165, 0x04d24d6c, 0xb85e2ce9, 0x5ef50f24, 0xfb121210, 0x948d25b6, 0x961f4894));
  }

  // ---------------------------------------------------------------------------
  // The digest
  // ---------------------------------------------------------------------------

  /** Adding the last working variables into H0. */
  lemma AbcAddState()
    ensures AddState(H0, Working(0x506e3058, 0xd39a2165, 0x04d24d6c, 0xb85e2ce9, 0x5ef50f24, 0xfb121210, 0x948d25b6, 0x961f4894)) == AbcFinal
  {
  }

  /** Compressing the block into H0 gives the final state. */
  lemma AbcCompress()
    ensures |Digest(AbcWords)| == 64 && Compress(H0, Digest(AbcWords)) == AbcFinal
  {
    AbcBlockSchedule();
    AbcRounds64();
    assert AbcSchedule[..64] == AbcSchedule;
    AbcAddState();
  }

  /** The final state written out big-endian is the expected digest. */
  lemma AbcFinalBytes()
    ensures Digest(AbcFinal) == AbcDigest
  {
  }

  /**
   * The test of `sha.rs`: the digest engine maps "abc" to
   * ba7816bf...f20015ad, which is also SHA-256("abc").
   */
  lemma KnownAnswer()
    ensures SourceHash(Abc) == AbcDigest
    ensures Sha256(Abc) == AbcDigest
  {
    AbcBlocks();
    AbcBlockBytes();
    HashOneBlock(H0, Digest(AbcWords));
    AbcCompress();
    AbcFinalBytes();
    ShortMessagesAgree(Abc);
  }
}
