/**
 * A functional description of what the digest engine computes, and of what
 * FIPS 180-4 says SHA-256 should compute, so that the two can be compared.
 *
 * The digest engine cuts the message into full 64-byte chunks, hashes them
 * left to right, and then hashes zero, one or two extra blocks built from the
 * remainder (`SourceBlocks`). FIPS 180-4 instead pads the whole message
 * (section 5.1.1, `StandardPad`) and hashes every 64-byte block of the result
 * (`StandardBlocks`). Both share the compression function of section 6.2.2
 * (`Schedule`, `Round`, `Rounds`, `Compress`) and the output encoding
 * (`Digest`).
 */
module ShaSpec {
  import opened ShaFunctions
  import opened SeqFacts

  // ---------------------------------------------------------------------------
  // Big-endian encodings
  // ---------------------------------------------------------------------------

  /** Four bytes read as one big-endian word. */
  function BytesToWord(b: seq<Byte>): Word
    requires |b| == 4
  {
    (b[0] as Word << 24) | (b[1] as Word << 16) | (b[2] as Word << 8) | (b[3] as Word)
  }

  /** `u32::to_be_bytes`: the four bytes of a word, most significant first. */
  function WordToBytes(w: Word): (b: seq<Byte>)
    ensures |b| == 4
  {
    [((w >> 24) & 0xff) as Byte, ((w >> 16) & 0xff) as Byte, ((w >> 8) & 0xff) as Byte, (w & 0xff) as Byte]
  }

  /** Reading back the bytes of a word gives the word. */
  lemma WordBytesWord(w: Word)
    ensures BytesToWord(WordToBytes(w)) == w
  {
  }

  /** Writing out the word read from four bytes gives those bytes. */
  lemma BytesWordBytes(b: seq<Byte>)
    requires |b| == 4
    ensures WordToBytes(BytesToWord(b)) == b
  {
    assert b == [b[0], b[1], b[2], b[3]];
    ByteLanes(b[0], b[1], b[2], b[3]);
  }

  lemma ByteLanes(x: Byte, y: Byte, z: Byte, u: Byte)
    ensures WordToBytes(BytesToWord([x, y, z, u])) == [x, y, z, u]
  {
  }

  /** `u64::to_be_bytes`: the eight bytes of a 64-bit number, most significant first. */
  function U64ToBytes(x: bv64): (b: seq<Byte>)
    ensures |b| == 8
  {
    [((x >> 56) & 0xff) as Byte, ((x >> 48) & 0xff) as Byte,
     ((x >> 40) & 0xff) as Byte, ((x >> 32) & 0xff) as Byte,
     ((x >> 24) & 0xff) as Byte, ((x >> 16) & 0xff) as Byte,
     ((x >> 8) & 0xff) as Byte, (x & 0xff) as Byte]
  }

  /** Eight bytes read as one big-endian 64-bit number. */
  function BytesToU64(b: seq<Byte>): bv64
    requires |b| == 8
  {
    (b[0] as bv64 << 56) | (b[1] as bv64 << 48) | (b[2] as bv64 << 40) | (b[3] as bv64 << 32)
    | (b[4] as bv64 << 24) | (b[5] as bv64 << 16) | (b[6] as bv64 << 8) | (b[7] as bv64)
  }

  /** Reading back the bytes of a 64-bit number gives the number. */
  lemma U64BytesU64(x: bv64)
    ensures BytesToU64(U64ToBytes(x)) == x
  {
  }

  /** `n as u64`: the low 64 bits of `n`, built from its binary digits. */
  function U64(n: nat): bv64
  {
    if n == 0 then 0 else (U64(n / 2) << 1) | (if n % 2 == 0 then 0 else 1)
  }

  /**
   * The bit length of an `n`-byte message as a 64-bit number, `n as u64 * 8`:
   * n * 8 modulo 2^64. For the remainders the digest engine encodes (at most
   * 63 bytes) nothing is lost.
   */
  function BitLength(n: nat): bv64
  {
    U64(n) * 8
  }

  function Zeros(n: nat): (z: seq<Byte>)
    ensures |z| == n && forall i :: 0 <= i < n ==> z[i] == 0
  {
    seq(n, _ => 0)
  }

  // ---------------------------------------------------------------------------
  // Message schedule (section 6.2.2, step 1)
  // ---------------------------------------------------------------------------

  /** The sixteen big-endian words of a 64-byte block. */
  function MessageWords(block: seq<Byte>): (w: seq<Word>)
    requires |block| == 64
    ensures |w| == 16
  {
    seq(16, i requires 0 <= i < 16 => BytesToWord(block[4 * i .. 4 * i + 4]))
  }

  /** σ1(W[i-2]) + W[i-7] + σ0(W[i-15]) + W[i-16], modulo 2^32. */
  function ScheduleWord(w2: Word, w7: Word, w15: Word, w16: Word): Word
  {
    SmallSigma1(w2) + w7 + SmallSigma0(w15) + w16
  }

  /** The schedule word at position `i`, from the words before it. */
  function NextWord(w: seq<Word>, i: nat): Word
    requires 16 <= i <= |w|
  {
    ScheduleWord(w[i - 2], w[i - 7], w[i - 15], w[i - 16])
  }

  /** Extends a schedule prefix to 64 words. */
  function Expand(w: seq<Word>): (r: seq<Word>)
    requires 16 <= |w| <= 64
    decreases 64 - |w|
  {
    if |w| == 64 then w else Expand(w + [NextWord(w, |w|)])
  }

  function Schedule(block: seq<Byte>): seq<Word>
    requires |block| == 64
  {
    Expand(MessageWords(block))
  }

  /** The recurrence that defines the schedule beyond word 15. */
  ghost predicate FollowsRecurrence(w: seq<Word>)
  {
    forall i :: 16 <= i < |w| ==> w[i] == NextWord(w, i)
  }

  /** Appending the next word keeps a schedule prefix following the recurrence. */
  lemma RecurrenceExtends(w: seq<Word>, x: Word)
    requires 16 <= |w| && FollowsRecurrence(w)
    requires x == NextWord(w, |w|)
    ensures FollowsRecurrence(w + [x])
  {
    var w' := w + [x];
    forall i | 16 <= i < |w'| ensures w'[i] == NextWord(w', i) {
      assert w'[i - 2] == w[i - 2] && w'[i - 7] == w[i - 7];
      assert w'[i - 15] == w[i - 15] && w'[i - 16] == w[i - 16];
    }
  }

  lemma {:induction false} ExpandSpec(w: seq<Word>)
    requires 16 <= |w| <= 64
    requires FollowsRecurrence(w)
    ensures |Expand(w)| == 64
    ensures Expand(w)[..|w|] == w
    ensures FollowsRecurrence(Expand(w))
    decreases 64 - |w|
  {
    if |w| < 64 {
      var w' := w + [NextWord(w, |w|)];
      RecurrenceExtends(w, NextWord(w, |w|));
      ExpandSpec(w');
      assert Expand(w)[..|w|] == Expand(w')[..|w'|][..|w|];
    }
  }

  /**
   * The schedule has 64 words: words 0..15 are the big-endian words of the
   * block, and every later word is σ1(W[i-2]) + W[i-7] + σ0(W[i-15]) + W[i-16]
   * modulo 2^32.
   */
  lemma ScheduleSpec(block: seq<Byte>)
    requires |block| == 64
    ensures |Schedule(block)| == 64
    ensures forall i :: 0 <= i < 16 ==> Schedule(block)[i] == BytesToWord(block[4 * i .. 4 * i + 4])
    ensures FollowsRecurrence(Schedule(block))
  {
    var w := MessageWords(block);
    ExpandSpec(w);
    forall i | 0 <= i < 16 ensures Schedule(block)[i] == BytesToWord(block[4 * i .. 4 * i + 4]) {
      assert Schedule(block)[i] == Schedule(block)[..16][i] == w[i];
    }
  }

  /** The block's words and the recurrence determine the schedule completely. */
  lemma {:induction false} ScheduleUnique(block: seq<Byte>, w: seq<Word>)
    requires |block| == 64 && |w| == 64
    requires forall i :: 0 <= i < 16 ==> w[i] == BytesToWord(block[4 * i .. 4 * i + 4])
    requires FollowsRecurrence(w)
    ensures Schedule(block) == w
  {
    var s := Schedule(block);
    ScheduleSpec(block);
    forall i | 0 <= i < 64 ensures s[i] == w[i] {
      ScheduleAgree(s, w, i);
    }
  }

  lemma {:induction false} ScheduleAgree(s: seq<Word>, w: seq<Word>, i: nat)
    requires |s| == |w| == 64 && i < 64
    requires forall j :: 0 <= j < 16 ==> s[j] == w[j]
    requires FollowsRecurrence(s) && FollowsRecurrence(w)
    ensures forall j :: 0 <= j <= i ==> s[j] == w[j]
  {
    if i >= 16 {
      ScheduleAgree(s, w, i - 1);
      assert s[i - 2] == w[i - 2] && s[i - 7] == w[i - 7];
      assert s[i - 15] == w[i - 15] && s[i - 16] == w[i - 16];
      assert s[i] == NextWord(s, i) && w[i] == NextWord(w, i);
    }
  }

  // ---------------------------------------------------------------------------
  // Compression (section 6.2.2, steps 2 to 4)
  // ---------------------------------------------------------------------------

  /** The working variables a..h. */
  datatype Working = Working(a: Word, b: Word, c: Word, d: Word, e: Word, f: Word, g: Word, h: Word)

  function Load(hash: seq<Word>): Working
    requires |hash| == 8
  {
    Working(hash[0], hash[1], hash[2], hash[3], hash[4], hash[5], hash[6], hash[7])
  }

  function Words(v: Working): (r: seq<Word>)
    ensures |r| == 8
  {
    [v.a, v.b, v.c, v.d, v.e, v.f, v.g, v.h]
  }

  /** T1 = h + Σ1(e) + Ch(e, f, g) + K[t] + W[t], modulo 2^32. */
  function T1(e: Word, f: Word, g: Word, h: Word, k: Word, w: Word): Word
  {
    h + BigSigma1(e) + Ch(e, f, g) + k + w
  }

  /** T2 = Σ0(a) + Maj(a, b, c), modulo 2^32. */
  function T2(a: Word, b: Word, c: Word): Word
  {
    BigSigma0(a) + Maj(a, b, c)
  }

  /** One round with round constant `k` and schedule word `w`. */
  function Round(v: Working, k: Word, w: Word): Working
  {
    Working(Add(T1(v.e, v.f, v.g, v.h, k, w), T2(v.a, v.b, v.c)), v.a, v.b, v.c,
            Add(v.d, T1(v.e, v.f, v.g, v.h, k, w)), v.e, v.f, v.g)
  }

  /** A round shifts h <- g <- f <- e and d <- c <- b <- a. */
  lemma RoundShifts(v: Working, k: Word, w: Word)
    ensures var r := Round(v, k, w);
      && r.b == v.a && r.c == v.b && r.d == v.c
      && r.f == v.e && r.g == v.f && r.h == v.g
  {
  }

  /** The only new values a round makes are a = T1 + T2 and e = d + T1. */
  lemma RoundUpdates(v: Working, k: Word, w: Word)
    ensures Round(v, k, w).e == Add(v.d, T1(v.e, v.f, v.g, v.h, k, w))
    ensures Round(v, k, w).a == Add(T1(v.e, v.f, v.g, v.h, k, w), T2(v.a, v.b, v.c))
  {
  }

  /** The rounds that use schedule words `w`, round `t` using K[t] and w[t]. */
  function Rounds(v: Working, w: seq<Word>): Working
    requires |w| <= 64
  {
    if w == [] then v else Round(Rounds(v, w[..|w| - 1]), K[|w| - 1], w[|w| - 1])
  }

  /** Round `t` takes the state after rounds 0..t-1 to the state after rounds 0..t. */
  lemma RoundsStep(v: Working, w: seq<Word>, t: nat)
    requires t < |w| <= 64
    ensures Rounds(v, w[..t + 1]) == Round(Rounds(v, w[..t]), K[t], w[t])
  {
    assert w[..t + 1][..t] == w[..t];
  }

  /** Adds the working variables into the state, word by word, modulo 2^32. */
  function AddState(hash: seq<Word>, v: Working): (r: seq<Word>)
    requires |hash| == 8
    ensures |r| == 8
  {
    seq(8, i requires 0 <= i < 8 => Add(hash[i], Words(v)[i]))
  }

  /** The compression of one block into the hash state. */
  function Compress(hash: seq<Word>, block: seq<Byte>): (r: seq<Word>)
    requires |hash| == 8 && |block| == 64
    ensures |r| == 8
  {
    ScheduleSpec(block);
    AddState(hash, Rounds(Load(hash), Schedule(block)))
  }

  // ---------------------------------------------------------------------------
  // Chaining the blocks
  // ---------------------------------------------------------------------------

  ghost predicate AllBlocks(bs: seq<seq<Byte>>)
  {
    forall i :: 0 <= i < |bs| ==> |bs[i]| == 64
  }

  /** Compresses the blocks into `hash`, first block first. */
  function HashBlocks(hash: seq<Word>, bs: seq<seq<Byte>>): (r: seq<Word>)
    requires |hash| == 8 && AllBlocks(bs)
    ensures |r| == 8
  {
    if bs == [] then hash else Compress(HashBlocks(hash, bs[..|bs| - 1]), bs[|bs| - 1])
  }

  /** Hashing one more block compresses it into the state the others left. */
  lemma HashBlocksStep(hash: seq<Word>, bs: seq<seq<Byte>>, b: seq<Byte>)
    requires |hash| == 8 && AllBlocks(bs) && |b| == 64
    ensures AllBlocks(bs + [b])
    ensures HashBlocks(hash, bs + [b]) == Compress(HashBlocks(hash, bs), b)
  {
    TakeAppend(bs, [b]);
  }

  /** Hashing a single block is compressing it. */
  lemma HashOneBlock(hash: seq<Word>, b: seq<Byte>)
    requires |hash| == 8 && |b| == 64
    ensures AllBlocks([b])
    ensures HashBlocks(hash, [b]) == Compress(hash, b)
  {
    HashBlocksStep(hash, [], b);
    EmptyAppend([b]);
  }

  /** Hashing two blocks compresses the first, then the second. */
  lemma HashTwoBlocks(hash: seq<Word>, b0: seq<Byte>, b1: seq<Byte>)
    requires |hash| == 8 && |b0| == 64 && |b1| == 64
    ensures AllBlocks([b0, b1])
    ensures HashBlocks(hash, [b0, b1]) == Compress(Compress(hash, b0), b1)
  {
    HashOneBlock(hash, b0);
    HashBlocksStep(hash, [b0], b1);
    Pair(b0, b1);
  }

  /** Hashing `a + b` is hashing `a`, then `b` from the state `a` left. */
  lemma {:induction false} HashBlocksAppend(hash: seq<Word>, a: seq<seq<Byte>>, b: seq<seq<Byte>>)
    requires |hash| == 8 && AllBlocks(a) && AllBlocks(b)
    ensures AllBlocks(a + b)
    ensures HashBlocks(hash, a + b) == HashBlocks(HashBlocks(hash, a), b)
  {
    if b != [] {
      assert (a + b)[..|a + b| - 1] == a + b[..|b| - 1];
      HashBlocksAppend(hash, a, b[..|b| - 1]);
    } else {
      assert a + b == a;
    }
  }

  /** The full 64-byte chunks of a message, left to right. */
  function Chunks(m: seq<Byte>): seq<seq<Byte>>
    decreases |m|
  {
    if |m| < 64 then [] else [m[..64]] + Chunks(m[64..])
  }

  /** There are |m| / 64 chunks and chunk `c` is bytes 64c .. 64c + 63. */
  lemma {:induction false} ChunksSpec(m: seq<Byte>)
    ensures |Chunks(m)| == |m| / 64
    ensures forall c :: 0 <= c < |m| / 64 ==> Chunks(m)[c] == m[64 * c .. 64 * c + 64]
    ensures AllBlocks(Chunks(m))
  {
    if |m| >= 64 {
      ChunksSpec(m[64..]);
      forall c | 0 <= c < |m| / 64 ensures Chunks(m)[c] == m[64 * c .. 64 * c + 64] {
        if c > 0 {
          assert Chunks(m)[c] == Chunks(m[64..])[c - 1];
          assert m[64..][64 * (c - 1) .. 64 * (c - 1) + 64] == m[64 * c .. 64 * c + 64];
        }
      }
    }
  }

  /** The bytes after the last full chunk. */
  function Remainder(m: seq<Byte>): (r: seq<Byte>)
    ensures |r| == |m| % 64
  {
    m[64 * (|m| / 64)..]
  }

  /** The digest: the eight state words, each written big-endian. */
  function Digest(hash: seq<Word>): seq<Byte>
  {
    if hash == [] then [] else WordToBytes(hash[0]) + Digest(hash[1..])
  }

  /** Writing out one more word appends its four bytes. */
  lemma {:induction false} DigestSnoc(hash: seq<Word>, x: Word)
    ensures Digest(hash + [x]) == Digest(hash) + WordToBytes(x)
  {
    if hash != [] {
      assert (hash + [x])[1..] == hash[1..] + [x];
      DigestSnoc(hash[1..], x);
    }
  }

  /** Groups of four bytes read back as words. */
  function DigestWords(d: seq<Byte>): seq<Word>
    requires |d| % 4 == 0
  {
    if d == [] then [] else [BytesToWord(d[..4])] + DigestWords(d[4..])
  }

  /** The digest has four bytes per word; bytes 4i..4i+3 are word i, big-endian. */
  lemma {:induction false} DigestLayout(hash: seq<Word>)
    ensures |Digest(hash)| == 4 * |hash|
    ensures forall i :: 0 <= i < |hash| ==> Digest(hash)[4 * i .. 4 * i + 4] == WordToBytes(hash[i])
  {
    if hash != [] {
      DigestLayout(hash[1..]);
      var d := Digest(hash);
      forall i | 0 <= i < |hash| ensures d[4 * i .. 4 * i + 4] == WordToBytes(hash[i]) {
        if i > 0 {
          assert d[4 * i .. 4 * i + 4] == Digest(hash[1..])[4 * (i - 1) .. 4 * (i - 1) + 4];
        }
      }
    }
  }

  /** The state words can be read back from the digest. */
  lemma {:induction false} DigestRoundTrip(hash: seq<Word>)
    ensures |Digest(hash)| % 4 == 0
    ensures DigestWords(Digest(hash)) == hash
  {
    DigestLayout(hash);
    if hash != [] {
      var d := Digest(hash);
      assert d[..4] == WordToBytes(hash[0]);
      assert d[4..] == Digest(hash[1..]);
      WordBytesWord(hash[0]);
      DigestRoundTrip(hash[1..]);
    }
  }

  // ---------------------------------------------------------------------------
  // The digest engine's padding and the hash it computes
  // ---------------------------------------------------------------------------

  /**
   * The blocks the digest engine hashes after the full chunks, by remainder
   * length: none for 57..63 bytes, one block with 0x80 at byte 55 and no
   * length for an empty remainder, and otherwise the remainder, 0x80, zeros
   * and the remainder's own bit length as a 64-bit big-endian number.
   */
  function FinalBlocks(rem: seq<Byte>): (bs: seq<seq<Byte>>)
    requires |rem| < 64
    ensures AllBlocks(bs)
  {
    var len := |rem|;
    if len == 0 then
      [Zeros(55) + [0x80] + Zeros(8)]
    else if len < 56 then
      [rem + [0x80] + Zeros(55 - len) + U64ToBytes(BitLength(len))]
    else if len == 56 then
      [rem + [0x80] + Zeros(7), Zeros(56) + U64ToBytes(BitLength(len))]
    else
      []
  }

  /** Every block the digest engine compresses, in order. */
  function SourceBlocks(m: seq<Byte>): (bs: seq<seq<Byte>>)
    ensures AllBlocks(bs)
  {
    ChunksSpec(m);
    Chunks(m) + FinalBlocks(Remainder(m))
  }

  /** What the digest engine returns for `m`. */
  function SourceHash(m: seq<Byte>): seq<Byte>
  {
    Digest(HashBlocks(H0, SourceBlocks(m)))
  }

  /** The digest is always 32 bytes: the eight final state words, big-endian. */
  lemma SourceHashLayout(m: seq<Byte>)
    ensures |SourceHash(m)| == 32
    ensures forall i :: 0 <= i < 8 ==>
      SourceHash(m)[4 * i .. 4 * i + 4] == WordToBytes(HashBlocks(H0, SourceBlocks(m))[i])
  {
    DigestLayout(HashBlocks(H0, SourceBlocks(m)));
  }

  // ---------------------------------------------------------------------------
  // SHA-256 as FIPS 180-4 pads it
  // ---------------------------------------------------------------------------

  /**
   * Section 5.1.1: the message, a 1 bit (0x80), the fewest zero bytes that
   * make the length 56 modulo 64, and the message's bit length modulo 2^64
   * as a 64-bit big-endian number.
   */
  function StandardPad(m: seq<Byte>): seq<Byte>
  {
    m + [0x80] + Zeros((55 - |m|) % 64) + U64ToBytes(BitLength(|m|))
  }

  /**
   * The padded message is a whole number of blocks, starts with the message,
   * then 0x80, then only zeros up to the last eight bytes.
   */
  lemma StandardPadLayout(m: seq<Byte>)
    ensures var p := StandardPad(m);
      && |p| % 64 == 0
      && |m| + 9 <= |p| < |m| + 73
      && p[..|m|] == m
      && p[|m|] == 0x80
      && (forall i :: |m| < i < |p| - 8 ==> p[i] == 0)
  {
    var p := StandardPad(m);
    var z := Zeros((55 - |m|) % 64);
    assert p == m + [0x80] + z + U64ToBytes(BitLength(|m|));
    assert (|m| + 1 + |z| + 8) % 64 == 0;
    assert p[..|m|] == m;
    assert p[|m|] == 0x80;
    forall i | |m| < i < |p| - 8 ensures p[i] == 0 {
      assert p[i] == z[i - |m| - 1];
    }
  }

  /** The last eight bytes of the padded message read back as the bit length. */
  lemma StandardPadLength(m: seq<Byte>)
    ensures |StandardPad(m)| >= 8
    ensures BytesToU64(StandardPad(m)[|StandardPad(m)| - 8..]) == BitLength(|m|)
  {
    var p := StandardPad(m);
    var tail := p[|p| - 8..];
    assert tail == U64ToBytes(BitLength(|m|));
    U64BytesU64(BitLength(|m|));
  }

  function StandardBlocks(m: seq<Byte>): (bs: seq<seq<Byte>>)
    ensures AllBlocks(bs)
  {
    ChunksSpec(StandardPad(m));
    Chunks(StandardPad(m))
  }

  /** SHA-256 of `m` as FIPS 180-4 defines it. */
  function Sha256(m: seq<Byte>): seq<Byte>
  {
    Digest(HashBlocks(H0, StandardBlocks(m)))
  }
}
