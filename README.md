# GoonPass digest engine and credential list, in Dafny

GoonPass is a local password vault. It turns the master passphrase into a
256-bit key with its own SHA-256 implementation (`src/sha.rs`). It keeps the
stored credentials in a vector that it sorts by name and searches by binary
search (`src/algo.rs`). This project models both files and proves what they
compute.

- `sha_functions.dfy` (module `ShaFunctions`): 32-bit words, and
  `ch`, `maj`, `sigma0u`, `sigma1u`, `sigma0l`, `sigma1l`. It also holds the
  round constants `K` and the initial state H0, and proves both tables from
  the cube and square roots of the first primes.
- `sha_spec.dfy` (module `ShaSpec`): the functional description.
  - The message schedule, one round, the compression of one block, and the
    chaining of blocks.
  - The big-endian digest layout.
  - `SourceBlocks` / `SourceHash`: the blocks `hash` compresses and the digest
    it returns.
  - `StandardPad` / `Sha256`: SHA-256 as section 5.1.1 of FIPS 180-4 pads it.
- `sha.dfy` (module `Sha`): the imperative code.
  - `hash_block` as `Sha.HashBlock`. It works on a `hash` array of eight
    words and a 64-word schedule array, with the same loops and the same
    eight local working variables.
  - `hash` as `Sha.Hash`. Its parts (the chunk loop, the three padding
    branches and the digest loop) are separate methods, each proved against
    `ShaSpec`.
  - `Sha.HashStandard`: the same engine with FIPS 180-4 padding.
- `sha_padding.dfy` (module `ShaPadding`): exactly when the engine's padding
  agrees with FIPS 180-4, and the inputs where it does not.
- `sha_kat.dfy` (module `ShaKnownAnswer`): the known-answer test of
  `sha.rs`, proved step by step.
  - The "abc" block and its 64 schedule words.
  - The working variables after every round.
  - The final digest ba7816bf…f20015ad.
- `algo.dfy` (module `Algo`):
  - `alphabetical` as a loop (`Alphabetical`) equal to a recursive order
    `After`, which is proved to be strict lexicographic order;
  - `sort` as the same remove/insert insertion sort on a sequence;
  - `contains`, as written and corrected.
- `seq_facts.dfy` (module `SeqFacts`): generic sequence lemmas the proofs use.

The model follows the code where it departs from section 5.1.1 of FIPS
180-4:

- For a remainder of 57–63 bytes, FIPS 180-4 emits two more blocks. The code
  hashes nothing more.
- For an empty remainder, FIPS 180-4 puts 0x80 at byte 0 of the extra block
  and ends it with the message's bit length. The code puts 0x80 at byte 55
  and writes no length.

## Model

| member | source | states |
|---|---|---|
| ShaFunctions.ChChooses | src/sha.rs:99-101 | where x has a one, `ch` takes y's bit; where x has a zero, z's bit |
| ShaFunctions.MajIsMajority | src/sha.rs:103-105 | each bit of `maj` is set exactly when at least two of the three input bits are |
| ShaFunctions.BigSigma0IsRotations | src/sha.rs:107-109 | `sigma0u` is ROTR2 ^ ROTR13 ^ ROTR22, with ROTR written out as shifts as FIPS 180-4 defines it |
| ShaFunctions.BigSigma1IsRotations | src/sha.rs:111-113 | `sigma1u` is ROTR6 ^ ROTR11 ^ ROTR25 written out as shifts |
| ShaFunctions.SmallSigma0IsRotations | src/sha.rs:115-117 | `sigma0l` is ROTR7 ^ ROTR18 ^ SHR3 written out as shifts |
| ShaFunctions.SmallSigma1IsRotations | src/sha.rs:119-121 | `sigma1l` is ROTR17 ^ ROTR19 ^ SHR10 written out as shifts |
| ShaFunctions.InitialHashFromSquareRoots | src/sha.rs:2-5 | each of the eight initial words is the first 32 fractional bits of the square root of one of the first eight primes |
| ShaFunctions.RoundConstantsFromCubeRoots | src/sha.rs:123-132 | each of the 64 constants is the first 32 fractional bits of the cube root of one of the first 64 primes |
| ShaSpec.WordBytesWord | src/sha.rs:38 | reading back the four big-endian bytes of a word gives the word |
| ShaSpec.BytesWordBytes | src/sha.rs:48-51 | the word assembled from four bytes writes back out as those bytes |
| ShaSpec.U64BytesU64 | src/sha.rs:22 | the eight big-endian bytes of the 64-bit length field read back as the length |
| ShaSpec.RecurrenceExtends | src/sha.rs:54-59 | appending the next recurrence word to a schedule prefix keeps the whole prefix following the recurrence |
| ShaSpec.ExpandSpec | src/sha.rs:54-59 | extending a prefix gives 64 words, keeps the prefix, and follows the recurrence |
| ShaSpec.ScheduleSpec | src/sha.rs:47-59 | the schedule has 64 words: words 0..15 are the block's big-endian words and every later word is σ1(w[i-2]) + w[i-7] + σ0(w[i-15]) + w[i-16] |
| ShaSpec.ScheduleUnique | src/sha.rs:47-59 | any 64 words with those first 16 words that follow the recurrence are the schedule |
| ShaSpec.ScheduleAgree | src/sha.rs:54-59 | two recurrence-following sequences with the same first 16 words agree everywhere |
| ShaSpec.RoundShifts | src/sha.rs:79-85 | a round moves a→b→c→d and e→f→g→h |
| ShaSpec.RoundUpdates | src/sha.rs:71-86 | a round makes new values only for e = d + T1 and a = T1 + T2 |
| ShaSpec.RoundsStep | src/sha.rs:70-87 | round t applies K[t] and w[t] to the state after rounds 0..t-1 |
| ShaSpec.HashBlocksStep | src/sha.rs:8-9 | compressing one more block extends the chain by that block |
| ShaSpec.HashOneBlock | src/sha.rs:17 | a single block compresses once |
| ShaSpec.HashTwoBlocks | src/sha.rs:25-33 | two blocks compress first block first |
| ShaSpec.HashBlocksAppend | src/sha.rs:7-34 | hashing a + b is hashing a and then b from the resulting state |
| ShaSpec.ChunksSpec | src/sha.rs:7 | there are len/64 chunks and chunk c is bytes 64c..64c+63, left to right |
| ShaSpec.DigestSnoc | src/sha.rs:36-39 | writing one more word appends its four big-endian bytes |
| ShaSpec.DigestLayout | src/sha.rs:36-39 | the digest has four bytes per word, and bytes 4i..4i+3 are word i, big-endian |
| ShaSpec.DigestRoundTrip | src/sha.rs:36-41 | the state words can be read back from the digest |
| ShaSpec.SourceHashLayout | src/sha.rs:1-42 | `hash` returns 32 bytes, and bytes 4i..4i+3 are final state word i, big-endian |
| ShaSpec.StandardPadLayout | src/sha.rs:12-34 | FIPS padding gives a multiple of 64 bytes: the message, 0x80, then only zeros up to the last eight bytes |
| ShaSpec.StandardPadLength | src/sha.rs:22 | the last eight bytes of the FIPS padding read back as the message's bit length |
| Sha.ExpandBlock | src/sha.rs:45-59 | the two schedule loops fill a fresh 64-word array with exactly the block's schedule |
| Sha.HashBlock | src/sha.rs:44-97 | after `hash_block`, `hash` is the compression of its old value with the block: 64 rounds, then the wrapping add of each working variable |
| Sha.Hash | src/sha.rs:1-42 | `hash` returns 32 bytes equal to the digest of H0 chained through every full chunk and then the remainder blocks |
| Sha.HashStandard | src/sha.rs:1-42 | the same engine with FIPS padding returns SHA-256 of the message |
| Sha.HashChunks | src/sha.rs:7-10 | the chunk loop compresses every full 64-byte chunk, first chunk first |
| Sha.HashRemainder | src/sha.rs:12-34 | the padding branches compress exactly the remainder blocks, and nothing for 57..63 bytes |
| Sha.HashEmptyRemainder | src/sha.rs:14-17 | an empty remainder compresses one zero block with 0x80 at byte 55 |
| Sha.HashShortRemainder | src/sha.rs:18-24 | 1..55 bytes compress one block: remainder, 0x80, zeros, then the remainder's bit length big-endian |
| Sha.HashFullRemainder | src/sha.rs:25-33 | 56 bytes compress remainder + 0x80 + zeros, then a zero block ending in the bit length |
| Sha.MarkedBlock | src/sha.rs:19-21 | a zero block with the prefix copied in and 0x80 right after it |
| Sha.LengthBlock | src/sha.rs:31-32 | a zero block whose last eight bytes are `len as u64 * 8` big-endian |
| Sha.MarkAfter | src/sha.rs:21 | setting the byte after the prefix of a zero-filled block gives prefix, 0x80, zeros |
| Sha.WriteDigest | src/sha.rs:36-39 | the output loop writes each state word big-endian, in order |
| Sha.CopyInto | src/sha.rs:20 | `copy_from_slice` replaces exactly the target range and leaves the rest |
| ShaPadding.ChunksAppend | src/sha.rs:7 | chunking a + b is chunking a then b, when a is a whole number of chunks |
| ShaPadding.StandardBlocksSplit | src/sha.rs:7-34 | FIPS hashes the same full chunks as `hash`, and differs only in the blocks after them |
| ShaPadding.EmptyRemainderDiffers | src/sha.rs:14-17 | with no remainder, `hash`'s extra block differs from the standard's |
| ShaPadding.ShortRemainderAgrees | src/sha.rs:18-24 | with 1..55 bytes left, `hash`'s block is the standard's exactly when the remainder's bit length is the message's |
| ShaPadding.FullRemainderAgrees | src/sha.rs:25-33 | with 56 bytes left, `hash`'s two blocks are the standard's exactly when the bit lengths agree |
| ShaPadding.LongRemainderDiffers | src/sha.rs:25-34 | with 57..63 bytes left, `hash` compresses no more blocks while the standard compresses two |
| ShaPadding.LengthFieldsAgree | src/sha.rs:22 | two length fields are equal exactly when the lengths are |
| ShaPadding.FinalBlocksAgree | src/sha.rs:12-34 | the remainder blocks match the standard's exactly when the remainder has 1..56 bytes and its bit length is the message's |
| ShaPadding.SourceBlocksAgree | src/sha.rs:1-34 | `hash` compresses the FIPS blocks exactly when len % 64 is in 1..56 and the bit lengths of remainder and message agree |
| ShaPadding.ShortMessagesAgree | src/sha.rs:1-42 | for messages of 1..56 bytes `hash` is SHA-256 |
| ShaPadding.WholeChunksMispadded | src/sha.rs:14-17 | every message whose length is a multiple of 64, the empty one included, is padded differently from FIPS |
| ShaPadding.LongRemainderIgnored | src/sha.rs:18-34 | with 57..63 bytes left over, only the full chunks are hashed |
| ShaPadding.LongRemainderCollision | src/sha.rs:1-42 | every message of 57..63 bytes hashes to the digest of H0 itself |
| ShaPadding.LengthFieldCountsRemainder | src/sha.rs:22 | 65 zero bytes get length field 8 where FIPS writes 520, so the blocks differ |
| ShaKnownAnswer.AbcBlocks | src/sha.rs:18-24 | "abc" is hashed as the single block 61626380 00…00 00000018 |
| ShaKnownAnswer.BlockWords | src/sha.rs:47-52 | sixteen words written out big-endian read back as the same words |
| ShaKnownAnswer.AbcBlockSchedule | src/sha.rs:47-59 | that block's schedule is the 64 words of NIST's published example with intermediate values |
| ShaKnownAnswer.AbcRounds64 | src/sha.rs:70-87 | after 64 rounds from H0 the working variables are those of NIST's published example |
| ShaKnownAnswer.AbcCompress | src/sha.rs:44-97 | compressing the block into H0 gives the final state |
| ShaKnownAnswer.AbcFinalBytes | src/sha.rs:36-39 | that state written big-endian is ba7816bf…f20015ad |
| ShaKnownAnswer.KnownAnswer | src/sha.rs:134-144 | `hash([0x61, 0x62, 0x63])` is ba7816bf…f20015ad, which is also SHA-256("abc") |
| Algo.AfterIsLexGreater | src/algo.rs:17-36 | `alphabetical(l, r)` holds exactly when l is lexicographically strictly greater than r |
| Algo.AfterIrreflexive | src/algo.rs:17-36 | no string is greater than itself |
| Algo.AfterAsymmetric | src/algo.rs:17-36 | if l is greater than r, then r is not greater than l |
| Algo.AfterTransitive | src/algo.rs:17-36 | the order is transitive |
| Algo.AfterTotal | src/algo.rs:17-36 | of two different strings, one is greater |
| Algo.NotAfterTransitive | src/algo.rs:17-36 | "not greater" is transitive |
| Algo.Alphabetical | src/algo.rs:17-36 | the iterator loop returns exactly the strict lexicographic order |
| Algo.SortedIsOrdered | src/algo.rs:4-14 | neighbours in order imply every pair in order |
| Algo.RemoveThenInsert | src/algo.rs:9-10 | `remove(i)` then `insert(j, ..)` moves entry i to position j, shifts j..i-1 up one and leaves the rest |
| Algo.Sort | src/algo.rs:4-14 | `sort` keeps the length and the entries with their multiplicities, and leaves every pair in name order |
| Algo.Contains | src/algo.rs:39-59 | as written: false on an empty list, true only for an entry at index 1 or later, and exactly that on a sorted list |
| Algo.ContainsFixed | src/algo.rs:39-59 | the corrected search is true only for a stored name, and on a sorted list exactly when the name is stored |
| Algo.ContainsMissesFirstEntry | src/algo.rs:43-47 | for the one-entry list "a", `contains("a")` is false and the corrected search is true |

## Left out

- The block cipher, the on-disk store, the user interface and `main`. They
  are not part of this model.
- `Sha.Hash`: the message is a sequence rather than a borrowed slice. The
  helper methods are the sections of `hash`, and each fills its own block.
- `Sha.HashBlock`: the eight `hash[i] = hash[i].wrapping_add(..)` statements
  are one simultaneous update. They touch distinct elements, so the result
  is the same.
- `ShaSpec.BitLength`: `len as u64 * 8` is built from the binary digits of
  `len` modulo 2^64. The model does not bound the message length by the
  address space.
- `ShaFunctions.InitialHashFromSquareRoots`: the primality of `FirstPrimes`
  is not proved. Only the root relations are.
- `Algo.Sort`: the `Vec` is modelled as a sequence value, because a
  `&mut Vec` cannot be aliased. The model does not capture allocation.
- `Algo.Contains`: the `list[middle]` access is modelled with the bounds the
  loop guarantees. Character comparison is by code point, as Rust compares
  `char`s. There is no Unicode normalisation.

## Findings

| source | as written | input that shows it | evidently intended | confidence | as-written member | corrected member |
|---|---|---|---|---|---|---|
| src/sha.rs:14-17 | an empty remainder hashes zeros with 0x80 at byte 55 and no length field | the empty message, or any multiple of 64 bytes | 0x80 at byte 0 and the message's bit length in the last eight bytes | not executed | ShaPadding.WholeChunksMispadded | Sha.HashStandard |
| src/sha.rs:25-34 | a remainder of 57..63 bytes adds no block, so those bytes never reach the state | 57 zero bytes and 63 zero bytes hash alike (to the digest of H0) | remainder + 0x80 + zeros, then a block ending in the bit length | not executed | ShaPadding.LongRemainderCollision | Sha.HashStandard |
| src/sha.rs:22 | the length field is the remainder's bit length, not the message's | 65 zero bytes: field 8 where 520 is due | `message.len() as u64 * 8` | not executed | ShaPadding.LengthFieldCountsRemainder | Sha.HashStandard |
| src/algo.rs:43-47 | `contains` stops when the midpoint equals `lhs`, so index 0 is never inspected | a one-entry list named "a", searched for "a" | a half-open search range that includes index 0 | not executed | Algo.ContainsMissesFirstEntry | Algo.ContainsFixed |
