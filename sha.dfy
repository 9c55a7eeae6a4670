/**
 * The digest engine itself: `hash_block` updates the eight state words in
 * place, and `hash` chunks the message, pads the remainder its own way and
 * writes out the digest. Each method is proved to compute the functions of
 * `ShaSpec`.
 */
module Sha {
  import opened ShaFunctions
  import opened ShaSpec
  import opened SeqFacts

  /**
   * The first half of `hash_block`: the block's sixteen big-endian words,
   * then words 16..63 from the recurrence, in a fresh 64-word array.
   */
  method ExpandBlock(block: seq<Byte>) returns (w: array<Word>)
    requires |block| == 64
    ensures fresh(w) && w.Length == 64
    ensures w[..] == Schedule(block)
  {
    w := new Word[64](_ => 0);
    for i := 0 to 16
      invariant forall j :: 0 <= j < i ==> w[j] == BytesToWord(block[4 * j .. 4 * j + 4])
    {
      w[i] := BytesToWord(block[4 * i .. 4 * i + 4]);
    }
    for i := 16 to 64
      invariant forall j :: 0 <= j < 16 ==> w[j] == BytesToWord(block[4 * j .. 4 * j + 4])
      invariant FollowsRecurrence(w[..i])
    {
      ghost var prefix := w[..i];
      assert prefix[i - 2] == w[i - 2] && prefix[i - 7] == w[i - 7];
      assert prefix[i - 15] == w[i - 15] && prefix[i - 16] == w[i - 16];
      w[i] := ScheduleWord(w[i - 2], w[i - 7], w[i - 15], w[i - 16]);
      assert w[..i] == prefix;
      TakeOneMore(w[..], i);
      RecurrenceExtends(prefix, w[i]);
    }
    assert w[..64] == w[..];
    ScheduleUnique(block, w[..]);
  }

  /**
   * `hash_block`: runs the 64 rounds on copies of the state words, using
   * the block's schedule, and adds the result back into `hash`.
   */
  method HashBlock(block: seq<Byte>, hash: array<Word>)
    requires |block| == 64 && hash.Length == 8
    modifies hash
    ensures hash[..] == Compress(old(hash[..]), block)
  {
    var w := ExpandBlock(block);
    assert w[..] == Schedule(block);
    ghost var start := hash[..];
    ghost var init := Load(start);
    var a, b, c, d, e, f, g, h := hash[0], hash[1], hash[2], hash[3], hash[4], hash[5], hash[6], hash[7];
    for round := 0 to 64
      modifies {}
      invariant Working(a, b, c, d, e, f, g, h) == Rounds(init, w[..round])
    {
      var t1 := T1(e, f, g, h, K[round], w[round]);
      var t2 := T2(a, b, c);
      h := g;
      g := f;
      f := e;
      e := Add(d, t1);
      d := c;
      c := b;
      b := a;
      a := Add(t1, t2);
      RoundsStep(init, w[..], round);
    }

    var v := Working(a, b, c, d, e, f, g, h);
    assert w[..] == Schedule(block);
    assert v == Rounds(init, w[..64]);
    assert w[..64] == w[..];
    assert v == Rounds(init, Schedule(block));
    assert Compress(start, block) == AddState(start, v);
    // The eight independent `hash[i] = hash[i].wrapping_add(..)` statements.
    forall i | 0 <= i < 8 {
      hash[i] := Add(hash[i], Words(v)[i]);
    }
  }

  /**
   * `hash`: compresses the message's full 64-byte chunks left to right, then
   * the blocks built from the remainder, and writes the state out big-endian.
   */
  method Hash(message: seq<Byte>) returns (digest: seq<Byte>)
    ensures |digest| == 32
    ensures digest == SourceHash(message)
  {
    var hash := new Word[8](i requires 0 <= i < 8 => H0[i]);
    assert hash[..] == H0;
    HashChunks(message, hash);
    var remainder := message[64 * (|message| / 64)..];
    HashRemainder(remainder, hash);
    HashBlocksAppend(H0, Chunks(message), FinalBlocks(remainder));
    digest := WriteDigest(hash);
    DigestLayout(hash[..]);
  }

  /**
   * `hash` with the padding of FIPS 180-4 section 5.1.1 in place of the
   * remainder blocks: the whole padded message is compressed chunk by chunk.
   */
  method HashStandard(message: seq<Byte>) returns (digest: seq<Byte>)
    ensures |digest| == 32
    ensures digest == Sha256(message)
  {
    var hash := new Word[8](i requires 0 <= i < 8 => H0[i]);
    assert hash[..] == H0;
    var padded := StandardPad(message);
    StandardPadLayout(message);
    HashChunks(padded, hash);
    digest := WriteDigest(hash);
    DigestLayout(hash[..]);
  }

  /** The first loop of `hash`: every full 64-byte chunk, first chunk first. */
  method HashChunks(message: seq<Byte>, hash: array<Word>)
    requires hash.Length == 8
    modifies hash
    ensures AllBlocks(Chunks(message))
    ensures hash[..] == HashBlocks(old(hash[..]), Chunks(message))
  {
    ChunksSpec(message);
    ghost var start := hash[..];
    ghost var chunks := Chunks(message);
    var count := |message| / 64;
    for c := 0 to count
      invariant hash[..] == HashBlocks(start, chunks[..c])
    {
      HashBlock(message[64 * c .. 64 * c + 64], hash);
      TakeOneMore(chunks, c);
      HashBlocksStep(start, chunks[..c], chunks[c]);
    }
    assert chunks[..count] == chunks;
  }

  /**
   * The padding part of `hash`: by the remainder's length, compresses no
   * block, the block with only 0x80 at byte 55, one block holding the
   * remainder, 0x80 and the remainder's bit length, or (for 56 bytes) a block
   * with the remainder and 0x80 followed by a block holding the bit length.
   */
  method HashRemainder(remainder: seq<Byte>, hash: array<Word>)
    requires |remainder| < 64 && hash.Length == 8
    modifies hash
    ensures hash[..] == HashBlocks(old(hash[..]), FinalBlocks(remainder))
  {
    var len := |remainder|;
    if len == 0 {
      HashEmptyRemainder(hash);
    } else if len < 56 {
      HashShortRemainder(remainder, hash);
    } else if len == 56 {
      HashFullRemainder(remainder, hash);
    } else {
      assert FinalBlocks(remainder) == [];
    }
  }

  /** No remainder: one block, all zeros but 0x80 at byte 55. */
  method HashEmptyRemainder(hash: array<Word>)
    requires hash.Length == 8
    modifies hash
    ensures hash[..] == HashBlocks(old(hash[..]), FinalBlocks([]))
  {
    var block := new Byte[64](_ => 0);
    assert block[..] == Zeros(64);
    block[55] := 0x80;
    MarkAfter(Zeros(55), 64);
    ghost var expected := Zeros(55) + [0x80] + Zeros(8);
    assert block[..] == expected;
    HashOneBlock(hash[..], expected);
    HashBlock(block[..], hash);
  }

  /** 1..55 bytes left: the remainder, 0x80, zeros and the bit length, in one block. */
  method HashShortRemainder(remainder: seq<Byte>, hash: array<Word>)
    requires 0 < |remainder| < 56 && hash.Length == 8
    modifies hash
    ensures hash[..] == HashBlocks(old(hash[..]), FinalBlocks(remainder))
  {
    var len := |remainder|;
    var block := MarkedBlock(remainder);
    ghost var head := remainder + [0x80] + Zeros(55 - len);
    ZerosSplit(55 - len, 8);
    Associative(remainder + [0x80], Zeros(55 - len), Zeros(8));
    assert block[..] == head + Zeros(8);
    var bits := U64ToBytes(BitLength(len));
    CopyInto(block, 56, bits);
    ReplaceSuffix(head, Zeros(8), bits);
    HashOneBlock(hash[..], head + bits);
    HashBlock(block[..], hash);
  }

  /**
   * 56 bytes left: the remainder and 0x80 fill one block, and a second block
   * holds only the bit length.
   */
  method HashFullRemainder(remainder: seq<Byte>, hash: array<Word>)
    requires |remainder| == 56 && hash.Length == 8
    modifies hash
    ensures hash[..] == HashBlocks(old(hash[..]), FinalBlocks(remainder))
  {
    ghost var start := hash[..];
    var len := |remainder|;
    var block := MarkedBlock(remainder);
    ghost var first := block[..];
    HashBlock(block[..], hash);

    var last := LengthBlock(len);
    HashTwoBlocks(start, first, last[..]);
    HashBlock(last[..], hash);
  }

  /**
   * `let mut block = [0; 64]`, its first bytes overwritten with `prefix` and
   * the byte after them set to 0x80.
   */
  method MarkedBlock(prefix: seq<Byte>) returns (block: array<Byte>)
    requires |prefix| < 64
    ensures fresh(block)
    ensures block[..] == prefix + [0x80] + Zeros(63 - |prefix|)
  {
    block := new Byte[64](_ => 0);
    assert block[..] == Zeros(64);
    CopyInto(block, 0, prefix);
    ReplacePrefix(Zeros(64), prefix);
    assert Zeros(64)[|prefix|..] == Zeros(64 - |prefix|);
    block[|prefix|] := 0x80;
    MarkAfter(prefix, 64);
  }

  /** `let mut block = [0; 64]` with the last eight bytes holding `len as u64 * 8`, big-endian. */
  method LengthBlock(len: nat) returns (block: array<Byte>)
    ensures fresh(block)
    ensures block[..] == Zeros(56) + U64ToBytes(BitLength(len))
  {
    block := new Byte[64](_ => 0);
    assert block[..] == Zeros(64);
    ZerosSplit(56, 8);
    var bits := U64ToBytes(BitLength(len));
    CopyInto(block, 56, bits);
    ReplaceSuffix(Zeros(56), Zeros(8), bits);
  }

  lemma ZerosSplit(m: nat, n: nat)
    ensures Zeros(m + n) == Zeros(m) + Zeros(n)
  {
  }

  /** Zero-filling after `prefix` up to `size` bytes and then marking the byte after `prefix` with 0x80. */
  lemma MarkAfter(prefix: seq<Byte>, size: nat)
    requires |prefix| < size
    ensures (prefix + Zeros(size - |prefix|))[|prefix| := 0x80] == prefix + [0x80] + Zeros(size - |prefix| - 1)
  {
    var b := prefix + Zeros(size - |prefix|);
    Overwrite(b, |prefix|, 0x80);
    TakeAppend(prefix, Zeros(size - |prefix|));
    assert b[|prefix| + 1..] == Zeros(size - |prefix|)[1..];
    assert Zeros(size - |prefix|)[1..] == Zeros(size - |prefix| - 1);
  }

  /** The last loop of `hash`: each state word, big-endian, into the digest. */
  method WriteDigest(hash: array<Word>) returns (digest: seq<Byte>)
    ensures digest == Digest(hash[..])
  {
    var d := new Byte[4 * hash.Length](_ => 0);
    for i := 0 to hash.Length
      modifies d
      invariant d[..4 * i] == Digest(hash[..i])
    {
      CopyInto(d, 4 * i, WordToBytes(hash[i]));
      TakeOneMore(hash[..], i);
      DigestSnoc(hash[..i], hash[i]);
    }
    assert hash[..hash.Length] == hash[..];
    digest := d[..];
  }

  /** `a[at..at + |xs|].copy_from_slice(xs)`. */
  method CopyInto<T>(a: array<T>, at: nat, xs: seq<T>)
    requires at + |xs| <= a.Length
    modifies a
    ensures a[..] == old(a[..])[..at] + xs + old(a[..])[at + |xs|..]
    ensures a[..at + |xs|] == old(a[..at]) + xs
  {
    forall k | 0 <= k < |xs| {
      a[at + k] := xs[k];
    }
  }
}
