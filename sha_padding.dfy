/**
 * How the digest engine's padding compares with FIPS 180-4 section 5.1.1.
 *
 * Both hash the message's full chunks first and differ only in the blocks
 * that follow them: `FinalBlocks` of the remainder for the engine, and
 * `StandardFinal` (the remainder, 0x80, zeros and the whole message's bit
 * length) for the standard. They agree exactly when the remainder has
 * 1..56 bytes and the bit length of the remainder equals that of the whole
 * message modulo 2^64; below 2^61 bytes that means messages of 1..56 bytes.
 */
module ShaPadding {
  import opened ShaFunctions
  import opened ShaSpec
  import opened SeqFacts

  /** Cutting `a + b` into chunks, when `a` is a whole number of chunks. */
  lemma {:induction false} ChunksAppend(a: seq<Byte>, b: seq<Byte>)
    requires |a| % 64 == 0
    ensures Chunks(a + b) == Chunks(a) + Chunks(b)
    decreases |a|
  {
    if |a| == 0 {
      assert a + b == b;
      EmptyAppend(Chunks(b));
    } else {
      AppendSlices(a, b, 64);
      ChunksAppend(a[64..], b);
      Associative([a[..64]], Chunks(a[64..]), Chunks(b));
    }
  }

  /** What FIPS 180-4 hashes after the full chunks of an `n`-byte message ending in `rem`. */
  function StandardFinal(rem: seq<Byte>, n: nat): seq<seq<Byte>>
  {
    Chunks(rem + [0x80] + Zeros((55 - |rem|) % 64) + U64ToBytes(BitLength(n)))
  }

  /** The standard's blocks are the full chunks followed by `StandardFinal`. */
  lemma StandardBlocksSplit(m: seq<Byte>)
    ensures StandardBlocks(m) == Chunks(m) + StandardFinal(Remainder(m), |m|)
  {
    var k := RemainderStart(m);
    TakeDrop(m, k);
    StandardBlocksAt(m, m[..k], m[k..]);
  }

  /** The remainder starts at a multiple of 64. */
  lemma RemainderStart(m: seq<Byte>) returns (k: nat)
    ensures k <= |m| && k % 64 == 0
    ensures Remainder(m) == m[k..] && |m[k..]| == |m| % 64
  {
    ChunkBoundary(|m|);
    k := 64 * (|m| / 64);
  }

  /** `StandardBlocksSplit` for a given cut of `m` into full chunks and remainder. */
  lemma StandardBlocksAt(m: seq<Byte>, body: seq<Byte>, rem: seq<Byte>)
    requires m == body + rem && |body| % 64 == 0 && |rem| == |m| % 64
    ensures StandardBlocks(m) == Chunks(m) + StandardFinal(rem, |m|)
  {
    StandardPadSplit(m, body, rem);
    ChunksAppend(body, rem + [0x80] + Zeros((55 - |rem|) % 64) + U64ToBytes(BitLength(|m|)));
    ChunksOfWholeChunks(m, body, rem);
  }

  /** The padded message is the full chunks, then the remainder padded with the whole length. */
  lemma StandardPadSplit(m: seq<Byte>, body: seq<Byte>, rem: seq<Byte>)
    requires m == body + rem && |rem| == |m| % 64
    ensures StandardPad(m) == body + (rem + [0x80] + Zeros((55 - |rem|) % 64) + U64ToBytes(BitLength(|m|)))
  {
    ZeroCountOfRemainder(|m|);
    Regroup(body, rem, [0x80], Zeros((55 - |rem|) % 64), U64ToBytes(BitLength(|m|)));
  }

  /** The chunks of `m` are the chunks of the part before its remainder. */
  lemma ChunksOfWholeChunks(m: seq<Byte>, body: seq<Byte>, rem: seq<Byte>)
    requires m == body + rem && |body| % 64 == 0 && |rem| < 64
    ensures Chunks(m) == Chunks(body)
  {
    ChunksAppend(body, rem);
    assert Chunks(rem) == [];
    AppendEmpty(Chunks(body));
  }

  /** A single block is its own only chunk. */
  lemma ChunksOfBlock(p: seq<Byte>)
    requires |p| == 64
    ensures Chunks(p) == [p]
  {
    assert p[..64] == p;
    assert Chunks(p[64..]) == [];
    AppendEmpty([p]);
  }

  /** Two blocks' worth of bytes make two chunks. */
  lemma ChunksOfTwoBlocks(p: seq<Byte>)
    requires |p| == 128
    ensures Chunks(p) == [p[..64], p[64..]]
  {
    ChunksOfBlock(p[64..]);
    Pair(p[..64], p[64..]);
  }

  /**
   * 1..55 bytes left: the engine's block matches the standard's exactly when
   * the remainder's bit length is the message's bit length.
   */
  lemma ShortRemainderAgrees(rem: seq<Byte>, n: nat)
    requires 0 < |rem| < 56
    ensures FinalBlocks(rem) == StandardFinal(rem, n) <==> BitLength(n) == BitLength(|rem|)
  {
    var head := rem + [0x80] + Zeros(55 - |rem|);
    assert (55 - |rem|) % 64 == 55 - |rem|;
    ChunksOfBlock(head + U64ToBytes(BitLength(n)));
    SingletonEquality(head + U64ToBytes(BitLength(|rem|)), head + U64ToBytes(BitLength(n)));
    CancelLeft(head, U64ToBytes(BitLength(|rem|)), U64ToBytes(BitLength(n)));
    LengthFieldsAgree(BitLength(|rem|), BitLength(n));
  }

  /** The big-endian length field determines the length it encodes. */
  lemma LengthFieldsAgree(x: bv64, y: bv64)
    ensures U64ToBytes(x) == U64ToBytes(y) <==> x == y
  {
    U64BytesU64(x);
    U64BytesU64(y);
  }

  /** With 56 bytes left the standard padding spans two blocks. */
  lemma FullRemainderStandard(rem: seq<Byte>, n: nat)
    requires |rem| == 56
    ensures StandardFinal(rem, n) == [rem + [0x80] + Zeros(7), Zeros(56) + U64ToBytes(BitLength(n))]
  {
    var head := rem + [0x80];
    var bits := U64ToBytes(BitLength(n));
    var p := head + Zeros(63) + bits;
    assert (55 - |rem|) % 64 == 63;
    assert Zeros(63) == Zeros(7) + Zeros(56);
    SplitMiddle(head, Zeros(7), Zeros(56), bits);
    ChunksOfTwoBlocks(p);
  }

  /**
   * 56 bytes left: the engine's two blocks match the standard's exactly when
   * the remainder's bit length is the message's bit length.
   */
  lemma FullRemainderAgrees(rem: seq<Byte>, n: nat)
    requires |rem| == 56
    ensures FinalBlocks(rem) == StandardFinal(rem, n) <==> BitLength(n) == BitLength(|rem|)
  {
    var bits := U64ToBytes(BitLength(n));
    FullRemainderStandard(rem, n);
    PairEquality(rem + [0x80] + Zeros(7), Zeros(56) + U64ToBytes(BitLength(|rem|)),
                 rem + [0x80] + Zeros(7), Zeros(56) + bits);
    CancelLeft(Zeros(56), U64ToBytes(BitLength(|rem|)), bits);
    LengthFieldsAgree(BitLength(|rem|), BitLength(n));
  }

  /** No remainder: the engine's block starts with a zero byte, the standard's with 0x80. */
  lemma EmptyRemainderDiffers(n: nat)
    ensures FinalBlocks([]) != StandardFinal([], n)
  {
    var p := [] + [0x80] + Zeros(55) + U64ToBytes(BitLength(n));
    ChunksOfBlock(p);
    assert p[0] == 0x80;
    assert FinalBlocks([])[0][0] == 0;
  }

  /** 57..63 bytes left: the engine hashes nothing more, the standard two more blocks. */
  lemma LongRemainderDiffers(rem: seq<Byte>, n: nat)
    requires 57 <= |rem| < 64
    ensures FinalBlocks(rem) == []
    ensures |StandardFinal(rem, n)| == 2
  {
    var p := rem + [0x80] + Zeros((55 - |rem|) % 64) + U64ToBytes(BitLength(n));
    assert |p| == 128;
    ChunksSpec(p);
  }

  /**
   * The blocks after the full chunks agree exactly when the remainder has
   * 1..56 bytes and its bit length is the whole message's bit length.
   */
  lemma FinalBlocksAgree(rem: seq<Byte>, n: nat)
    requires |rem| < 64
    ensures FinalBlocks(rem) == StandardFinal(rem, n) <==> 0 < |rem| <= 56 && BitLength(n) == BitLength(|rem|)
  {
    if |rem| == 0 {
      EmptyRemainderDiffers(n);
    } else if |rem| < 56 {
      ShortRemainderAgrees(rem, n);
    } else if |rem| == 56 {
      FullRemainderAgrees(rem, n);
    } else {
      LongRemainderDiffers(rem, n);
    }
  }

  /**
   * The engine hashes the same blocks as FIPS 180-4 exactly when the
   * message's length modulo 64 is 1..56 and the remainder's bit length
   * equals the message's.
   */
  lemma SourceBlocksAgree(m: seq<Byte>)
    ensures SourceBlocks(m) == StandardBlocks(m) <==>
      0 < |m| % 64 <= 56 && BitLength(|m|) == BitLength(|m| % 64)
  {
    StandardBlocksSplit(m);
    FinalBlocksAgree(Remainder(m), |m|);
    CancelLeft(Chunks(m), FinalBlocks(Remainder(m)), StandardFinal(Remainder(m), |m|));
  }

  /** For messages of 1..56 bytes the engine computes SHA-256. */
  lemma ShortMessagesAgree(m: seq<Byte>)
    requires 0 < |m| <= 56
    ensures SourceHash(m) == Sha256(m)
  {
    SourceBlocksAgree(m);
  }

  /** Every message whose length is a multiple of 64 (the empty one too) is mispadded. */
  lemma WholeChunksMispadded(m: seq<Byte>)
    requires |m| % 64 == 0
    ensures SourceBlocks(m) != StandardBlocks(m)
  {
    SourceBlocksAgree(m);
  }

  /** With 57..63 bytes left over, those bytes never reach the hash. */
  lemma LongRemainderIgnored(m: seq<Byte>)
    requires |m| % 64 >= 57
    ensures SourceBlocks(m) == Chunks(m)
  {
    LongRemainderDiffers(Remainder(m), |m|);
    AppendEmpty(Chunks(m));
  }

  /** All messages of 57..63 bytes share one digest: that of the initial state. */
  lemma LongRemainderCollision(m: seq<Byte>)
    requires 57 <= |m| < 64
    ensures SourceHash(m) == Digest(H0)
  {
    LongRemainderIgnored(m);
    assert Chunks(m) == [];
  }

  /**
   * The length field holds the remainder's bit length, not the message's:
   * for 65 zero bytes the engine writes 8 where FIPS 180-4 writes 520.
   */
  lemma LengthFieldCountsRemainder()
    ensures |FinalBlocks(Remainder(Zeros(65)))| == 1
    ensures FinalBlocks(Remainder(Zeros(65)))[0][56..] == U64ToBytes(BitLength(1))
    ensures |StandardFinal(Remainder(Zeros(65)), 65)| == 1
    ensures StandardFinal(Remainder(Zeros(65)), 65)[0][56..] == U64ToBytes(BitLength(65))
    ensures BitLength(1) == 8 && BitLength(65) != BitLength(1)
    ensures SourceBlocks(Zeros(65)) != StandardBlocks(Zeros(65))
  {
    assert Remainder(Zeros(65)) == Zeros(1);
    SixtyFiveZerosFields();
    SourceBlocksAgree(Zeros(65));
    assert BitLength(65) != BitLength(1);
  }

  /** The last eight bytes of the block after the single leftover zero byte, both ways. */
  lemma SixtyFiveZerosFields()
    ensures |FinalBlocks(Zeros(1))| == 1
    ensures FinalBlocks(Zeros(1))[0][56..] == U64ToBytes(BitLength(1))
    ensures |StandardFinal(Zeros(1), 65)| == 1
    ensures StandardFinal(Zeros(1), 65)[0][56..] == U64ToBytes(BitLength(65))
    ensures BitLength(1) == 8
  {
    var head := Zeros(1) + [0x80] + Zeros(54);
    assert (55 - 1) % 64 == 54;
    TakeAppend(head, U64ToBytes(BitLength(1)));
    TakeAppend(head, U64ToBytes(BitLength(65)));
    ChunksOfBlock(head + U64ToBytes(BitLength(65)));
  }

  lemma ChunkBoundary(n: nat)
    ensures (64 * (n / 64)) % 64 == 0
    ensures 64 * (n / 64) + n % 64 == n
    ensures 64 * (n / 64) <= n
  {
  }

  /** The zero count of section 5.1.1 depends only on the length modulo 64. */
  lemma ZeroCountOfRemainder(n: nat)
    ensures (55 - n) % 64 == (55 - n % 64) % 64
  {
    assert 55 - n == (55 - n % 64) - 64 * (n / 64);
  }
}
