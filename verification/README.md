# Verified models of the pdx-chain node core

This project models five cores of the node under `工程化实践/pdx-chain-so/pkg/pdx-chain` in Dafny and
proves what each of them is for. All `.dfy` files are verified together
(`dafny verify dfyconfig.toml`).

**Field and scalar arithmetic.** `FieldElement`, `Montgomery`, `Fp2`, `Inverse` and `Exponent` are the
six-limb arithmetic of BLS12-381 on arrays updated in place, aliasing included: the no-carry
Montgomery multiplication on unreduced inputs, the lazily reduced square of the quadratic extension and
Kaliski's almost inverse with its iteration bounds. `Lattice` and `CurvePoint` are the GLV
multiplication of bn256, `Gfp` its portable field arithmetic down to the carry formulas, `MultiExp` the bucket multi-exponentiation of G1. The points form a
commutative group given by its operations (`Groups`); its laws are assumptions of the theorems.
`Curves` says where their constants come from.
`Words`, `Congruence` and `Powers` hold the arithmetic these share, `Longs` words as bit vectors and
their bytes, `Bits` their single bits, and `Pieces` bytes and data in pieces.

**RLP.** `RlpFormat` is the recursive format of Appendix B of the Ethereum Yellow Paper with a parser,
and the proof that the two are inverse. `RlpEncoder` (deferred list headers, piecewise reader),
`RlpDecoder` (the stack machine of `Stream`, whose every run of calls, failing ones included, stays
within its limits) and `RlpRaw` (slices) are proved to agree with it.

**Account state.** `StateSpec` is the state as a value machine with journal and snapshots;
`StateJournal` proves that reverting restores every getter over all runs; `StateDb` is the same
machine as objects on the heap, refining it call by call. `StateLaws` says for each call what every
getter answers after it, and `StateLedger` that whole runs are those of plain records that are copied
at every snapshot. `StorageTrie` covers the two write-back caches over one trie and their flush.

**Account locks.** `AccountLocks` is the lock manager of `MStateDB` as a transition system over
atomic steps, with any number of transactions interleaved in any order; `AccountProgress` proves which
states can still end.

**Hashes and the queue.** `Keccak` proves the in-place permutation, whose lanes wander for four
rounds, equal to the step mappings of FIPS 202, tables included, and `Blake2F` the unrolled compression
function equal to that of RFC 7693. `Sponge`, `Blake2b` and `Blake2x` prove that buffered hashing does
not depend on how data is cut; `Sha3` joins the sponge, which is for any permutation, with Keccak-f.
`KeccakBits` and `Sha3Bits` are FIPS 202 on booleans, from the step mappings to the digest, and
`Blake2Words` and `Blake2Rfc` are RFC 7693 on numbers, bits and numbered blocks; the code is proved to
compute both.
`Sstack` and `Prque` are the block-allocated stack and the indexed heap over it.

Where the code and its comments disagree the code is modelled: `round` in `lattice.go` promises a
nearest integer, which `Lattice.RoundIsNearestIff` and `Lattice.CurveRoundsOff` correct, and
`_checkDeadLock` walks a chain of waiting transactions in its comment but makes a single pass
(`AccountLocks.CheckDeadLock`), so that circles of three go unseen (`AccountLocks.DeadlockFreeIff`).
Word keys and raw keys of an account share one trie, so that its caches read right exactly if no key is
used both ways (`StorageTrie.StorageIff`). `clone` in `sha3.go` promises a copy in the current state,
but while squeezing starts it by the capacity of the buffer: it goes on with the output of every
permutation and message exactly for the rate 168 (`Sponge.SumAfterReadIff`), and near the start of a
block it panics for every lower one (`Sponge.NeverGoesOn`). The comment on the parameter of bn256 gives
another number than the constant (`Curves.Bn256Parameter`).

## Model

| member | source | states |
|---|---|---|
| `Words.Mul64` | 工程化实践/pdx-chain-so/pkg/pdx-chain/crypto/bls12381/arithmetic_fallback.go:477-503 | the two words of a 64-bit product, with no overflow in the high one |
| `FieldElement.NumInjective` | 工程化实践/pdx-chain-so/pkg/pdx-chain/crypto/bls12381/field_element.go:169-171 | six limbs and the number they spell determine each other, so comparing limbs compares numbers |
| `FieldElement.Add` | 工程化实践/pdx-chain-so/pkg/pdx-chain/crypto/bls12381/arithmetic_fallback.go:42-63 | reduced inputs give the reduced sum modulo q; the output may alias either input |
| `FieldElement.Double` | 工程化实践/pdx-chain-so/pkg/pdx-chain/crypto/bls12381/arithmetic_fallback.go:108-129 | twice the input modulo q, reduced, in place or not |
| `FieldElement.Sub` | 工程化实践/pdx-chain-so/pkg/pdx-chain/crypto/bls12381/arithmetic_fallback.go:165-182 | the difference modulo q, reduced, with the borrow repaired by adding q |
| `FieldElement.Neg` | 工程化实践/pdx-chain-so/pkg/pdx-chain/crypto/bls12381/arithmetic_fallback.go:213-225 | the reduced additive inverse, zero for zero |
| `FieldElement.LAdd` | 工程化实践/pdx-chain-so/pkg/pdx-chain/crypto/bls12381/arithmetic_fallback.go:88-96 | the unreduced sum, exact when it fits six words |
| `FieldElement.LSubAssign` | 工程化实践/pdx-chain-so/pkg/pdx-chain/crypto/bls12381/arithmetic_fallback.go:203-211 | the difference modulo 2^384 without reduction |
| `FieldElement.ReduceOnce` | 工程化实践/pdx-chain-so/pkg/pdx-chain/crypto/bls12381/arithmetic_fallback.go:54-62 | subtracts q exactly when the number is not below it |
| `FieldElement.Cmp` | 工程化实践/pdx-chain-so/pkg/pdx-chain/crypto/bls12381/field_element.go:158-167 | the sign of the comparison of the two numbers |
| `FieldElement.Div2` | 工程化实践/pdx-chain-so/pkg/pdx-chain/crypto/bls12381/field_element.go:179-186 | halves the number and puts the given bit on top |
| `FieldElement.Mul2` | 工程化实践/pdx-chain-so/pkg/pdx-chain/crypto/bls12381/field_element.go:188-197 | doubles the number and returns the bit shifted out |
| `Montgomery.Madd2` | 工程化实践/pdx-chain-so/pkg/pdx-chain/crypto/bls12381/arithmetic_fallback.go:495-503 | a*b + c + d in two words, never losing a carry |
| `Montgomery.Madd3` | 工程化实践/pdx-chain-so/pkg/pdx-chain/crypto/bls12381/arithmetic_fallback.go:558-566 | a*b + c + d + e*2^64 over three words, of which the source returns the lower two |
| `Montgomery.LostIff` | 工程化实践/pdx-chain-so/pkg/pdx-chain/crypto/bls12381/arithmetic_fallback.go:558-566 | the word that is dropped is zero if and only if the sum is below 2^128 |
| `Montgomery.LowWordClears` | 工程化实践/pdx-chain-so/pkg/pdx-chain/crypto/bls12381/arithmetic_fallback.go:241-256 | the quotient digit makes the lowest word vanish |
| `Montgomery.RoundExact` | 工程化实践/pdx-chain-so/pkg/pdx-chain/crypto/bls12381/arithmetic_fallback.go:240-256 | one round adds a digit times y and a multiple of q and divides by 2^64 exactly |
| `Montgomery.RoundBound` | 工程化实践/pdx-chain-so/pkg/pdx-chain/crypto/bls12381/arithmetic_fallback.go:240-256 | the running value stays within six words, so no carry is dropped between rounds |
| `Montgomery.RoundsCompose` | 工程化实践/pdx-chain-so/pkg/pdx-chain/crypto/bls12381/arithmetic_fallback.go:227-344 | six exact rounds make a product divided by 2^384 modulo q |
| `Montgomery.Mul` | 工程化实践/pdx-chain-so/pkg/pdx-chain/crypto/bls12381/arithmetic_fallback.go:227-344 | for every six-word x and every y with y + q <= 2^384, aliased or not, the result is congruent to x*y/2^384; for y <= q it is the reduced Montgomery product |
| `Montgomery.MontMulMeans` | 工程化实践/pdx-chain-so/pkg/pdx-chain/crypto/bls12381/arithmetic_fallback.go:227-344 | the Montgomery product is the one value below q whose product with 2^384 is congruent to x*y |
| `Montgomery.RedcUnique` | 工程化实践/pdx-chain-so/pkg/pdx-chain/crypto/bls12381/arithmetic_fallback.go:332-343 | no other value below q has that property |
| `Fp2.KaratsubaProduct` | 工程化实践/pdx-chain-so/pkg/pdx-chain/crypto/bls12381/fp2.go:124-134 | the three-multiplication form equals the product of two complex numbers over the field |
| `Fp2.LazySquare` | 工程化实践/pdx-chain-so/pkg/pdx-chain/crypto/bls12381/fp2.go:148-155 | the two-multiplication form, fed with unreduced sums, equals the product of a number with itself |
| `Fp2.Fp2.Mul` | 工程化实践/pdx-chain-so/pkg/pdx-chain/crypto/bls12381/fp2.go:124-146 | the complex product through the shared scratch elements, with the output aliased to either input or not |
| `Fp2.Fp2.Square` | 工程化实践/pdx-chain-so/pkg/pdx-chain/crypto/bls12381/fp2.go:148-164 | the same result as multiplying the element by itself, although it multiplies unreduced values |
| `Inverse.StepU` | 工程化实践/pdx-chain-so/pkg/pdx-chain/crypto/bls12381/fp.go:104-135 | halving or subtracting on the u side keeps q = u*s + v*r, e*r = -u*2^k and e*s = v*2^k modulo q |
| `Inverse.StepV` | 工程化实践/pdx-chain-so/pkg/pdx-chain/crypto/bls12381/fp.go:104-135 | the same for the v side |
| `Inverse.StepLimit` | 工程化实践/pdx-chain-so/pkg/pdx-chain/crypto/bls12381/fp.go:104-135 | a kept state of the loop has 2^k at most twice the square of q |
| `Inverse.StepCount` | 工程化实践/pdx-chain-so/pkg/pdx-chain/crypto/bls12381/fp.go:104-143 | k never passes twice the bit length of q, and when the loop ends for an element coprime to q it is not below that length: neither failure exit is taken |
| `Inverse.StopsAtGcd` | 工程化实践/pdx-chain-so/pkg/pdx-chain/crypto/bls12381/fp.go:104-143 | phase one ends with a common divisor of q and e that every other divides, which is one for a coprime element |
| `Inverse.PhaseOneStep` | 工程化实践/pdx-chain-so/pkg/pdx-chain/crypto/bls12381/fp.go:104-135 | one pass of the loop on the limbs is one step of the algorithm on numbers, and r and s stay within six words |
| `Inverse.PhaseOne` | 工程化实践/pdx-chain-so/pkg/pdx-chain/crypto/bls12381/fp.go:95-143 | for every element but zero the loop ends, with k <= 762 and the invariants of the steps; the limbs hold numbers throughout |
| `Inverse.PhaseTwo` | 工程化实践/pdx-chain-so/pkg/pdx-chain/crypto/bls12381/fp.go:144-152 | the doublings bring the almost inverse to the exponent 768 |
| `Inverse.Invert` | 工程化实践/pdx-chain-so/pkg/pdx-chain/crypto/bls12381/fp.go:95-154 | zero gives zero; every e coprime to q has an inverse, and the result is the value below q whose product with e is congruent to 2^768 |
| `Inverse.Residue` | 工程化实践/pdx-chain-so/pkg/pdx-chain/crypto/bls12381/fp.go:95-154 | a coprime element has exactly one value below q whose product with it is congruent to 2^k, and r gives it |
| `Inverse.CoprimeIffInvertible` | 工程化实践/pdx-chain-so/pkg/pdx-chain/crypto/bls12381/fp.go:95-154 | an element has an inverse modulo q if and only if it is coprime to q |
| `Exponent.MontRoundTrip` | 工程化实践/pdx-chain-so/pkg/pdx-chain/crypto/bls12381/fp.go:76-82 | leaving Montgomery form after entering it gives the number back, and the other way round |
| `Exponent.MontHomomorphism` | 工程化实践/pdx-chain-so/pkg/pdx-chain/crypto/bls12381/fp.go:24-35 | the Montgomery product of two forms is the form of the product |
| `Exponent.InverseTimesSelf` | 工程化实践/pdx-chain-so/pkg/pdx-chain/crypto/bls12381/fp.go:95-154 | the Montgomery product of an element and its inverse is the form of one |
| `Exponent.MontPowAdd` | 工程化实践/pdx-chain-so/pkg/pdx-chain/crypto/bls12381/fp.go:84-93 | powers of a form multiply by adding exponents |
| `Exponent.MontPowIsPower` | 工程化实践/pdx-chain-so/pkg/pdx-chain/crypto/bls12381/fp.go:84-93 | the power of a form is the form of the power |
| `Exponent.Exp` | 工程化实践/pdx-chain-so/pkg/pdx-chain/crypto/bls12381/fp.go:84-93 | square-and-multiply from the top bit computes the power, the form of a^e for the form of a, for every exponent |
| `AccountLocks.CheckDeadLock` | 工程化实践/pdx-chain-so/pkg/pdx-chain/core/state/multi_statedb.go:133-154 | the loop makes at most one pass and answers exactly whether the holder waits for an account of the requester |
| `AccountLocks.StepKeepsInv` | 工程化实践/pdx-chain-so/pkg/pdx-chain/core/state/multi_statedb.go:156-239 | every atomic step of every transaction keeps the invariant of the lock tables |
| `AccountLocks.RunKeepsInv` | 工程化实践/pdx-chain-so/pkg/pdx-chain/core/state/multi_statedb.go:156-239 | so does every interleaving of any number of transactions |
| `AccountLocks.ReturnsHolding` | 工程化实践/pdx-chain-so/pkg/pdx-chain/core/state/multi_statedb.go:156-213 | a request returns only when the caller holds the mutex of the account, which no other transaction holds |
| `AccountLocks.QueueIsHeld` | 工程化实践/pdx-chain-so/pkg/pdx-chain/core/state/multi_statedb.go:156-213 | the queue of a running transaction lists exactly the accounts it holds, each once |
| `AccountLocks.ReleaseIsExact` | 工程化实践/pdx-chain-so/pkg/pdx-chain/core/state/multi_statedb.go:227-239 | every mutex released is held by the releasing transaction and is released once |
| `AccountLocks.ExecutedAreCompleted` | 工程化实践/pdx-chain-so/pkg/pdx-chain/core/state/multi_statedb.go:219-245 | in every run GetTxs gives the transactions that called UnLockAccounts(true), in the order of those calls, each once, and none of them is still running |
| `AccountLocks.RunKeepsLocks` | 工程化实践/pdx-chain-so/pkg/pdx-chain/core/state/multi_statedb.go:156-213 | in every run an account keeps its first mutex and stays recorded for some transaction, even after that has released it |
| `AccountLocks.MutualWaitSeen` | 工程化实践/pdx-chain-so/pkg/pdx-chain/core/state/multi_statedb.go:178-211 | a request that would close a cycle of two is seen |
| `AccountLocks.PanicIsExact` | 工程化实践/pdx-chain-so/pkg/pdx-chain/core/state/multi_statedb.go:178-211 | the panic comes exactly when the recorded holder is itself blocked on an account that the requester holds |
| `AccountLocks.RunKeepsNoMutualWait` | 工程化实践/pdx-chain-so/pkg/pdx-chain/core/state/multi_statedb.go:133-213 | in every reachable state no two transactions wait for each other |
| `AccountLocks.DeadlockFreeIff` | 工程化实践/pdx-chain-so/pkg/pdx-chain/core/state/multi_statedb.go:133-239 | all interleavings are free of deadlock if and only if there are at most two transactions |
| `AccountLocks.ThreeCanDeadlock` | 工程化实践/pdx-chain-so/pkg/pdx-chain/core/state/multi_statedb.go:133-154 | a run in which three transactions wait in a circle and none panics |
| `AccountProgress.StuckForever` | 工程化实践/pdx-chain-so/pkg/pdx-chain/core/state/multi_statedb.go:156-239 | a deadlock is for good: no run leads out of it |
| `AccountProgress.Finish` | 工程化实践/pdx-chain-so/pkg/pdx-chain/core/state/multi_statedb.go:156-239 | a transaction that waits for no held mutex can run to its end alone |
| `AccountProgress.CanFinishIff` | 工程化实践/pdx-chain-so/pkg/pdx-chain/core/state/multi_statedb.go:133-239 | every state of every run can still end all transactions if and only if no set of them waits in itself |
| `AccountProgress.AlwaysFinishesIff` | 工程化实践/pdx-chain-so/pkg/pdx-chain/core/state/multi_statedb.go:133-239 | every run can be brought to an end if and only if there are at most two transactions |
| `RlpFormat.ParseEncode` | 工程化实践/pdx-chain-so/pkg/pdx-chain/rlp/decode.go:478-500 | parsing an encoding followed by anything gives back the item and the length |
| `RlpFormat.EncodeParse` | 工程化实践/pdx-chain-so/pkg/pdx-chain/rlp/decode.go:857-943 | whatever is parsed was the encoding of the result, so only canonical strings are accepted |
| `RlpFormat.DecodeIffEncode` | 工程化实践/pdx-chain-so/pkg/pdx-chain/rlp/decode.go:88-108 | a string decodes to an item if and only if it is that item's encoding |
| `RlpFormat.EncodeInjective` | 工程化实践/pdx-chain-so/pkg/pdx-chain/rlp/encode.go:70-78 | different items have different encodings |
| `RlpFormat.BigEndianUnique` | 工程化实践/pdx-chain-so/pkg/pdx-chain/rlp/encode.go:548-603 | a byte string without leading zero is the encoding of the number it spells |
| `RlpFormat.YellowPaper` | 工程化实践/pdx-chain-so/pkg/pdx-chain/rlp/encode.go:123-136 | the five forms of Appendix B: a byte below 128 as itself, up to 55 bytes behind 128 or 192 plus the length, more behind 183 or 247 plus the size of the length, which has no leading zero |
| `RlpRaw.ReadSize` | 工程化实践/pdx-chain-so/pkg/pdx-chain/rlp/raw.go:127-156 | the size is accepted exactly when it is canonical, and is the number the bytes spell |
| `RlpRaw.ReadKind` | 工程化实践/pdx-chain-so/pkg/pdx-chain/rlp/raw.go:86-125 | accepts exactly the heads that the format accepts, with the same tag and content sizes |
| `RlpRaw.HeadErrors` | 工程化实践/pdx-chain-so/pkg/pdx-chain/rlp/raw.go:86-156 | which error a head has: not enough bytes for the size, a size that is not canonical or belongs in a shorter form, or a value longer than the input |
| `RlpRaw.SplitEncoded` | 工程化实践/pdx-chain-so/pkg/pdx-chain/rlp/raw.go:39-45 | an encoded value is cut off whatever follows it, with its content and kind |
| `RlpRaw.CountValues` | 工程化实践/pdx-chain-so/pkg/pdx-chain/rlp/raw.go:74-84 | counts the values that follow each other up to the end, or fails where one does not parse |
| `RlpRaw.CountAgrees` | 工程化实践/pdx-chain-so/pkg/pdx-chain/rlp/decode.go:289-316 | where the values of a list decode, the count is the number of items decoded |
| `RlpRaw.HeadsEncoded` | 工程化实践/pdx-chain-so/pkg/pdx-chain/rlp/raw.go:74-84 | the count of a concatenation of encodings is the number of items |
| `RlpRaw.PutIntIsBigEndian` | 工程化实践/pdx-chain-so/pkg/pdx-chain/rlp/encode.go:548-603 | the unrolled cases write the shortest big-endian form, and one zero byte for zero |
| `RlpRaw.AppendUint64Encodes` | 工程化实践/pdx-chain-so/pkg/pdx-chain/rlp/raw.go:159-227 | appends the encoding of the shortest big-endian form of every 64-bit number |
| `RlpEncoder.IntSize` | 工程化实践/pdx-chain-so/pkg/pdx-chain/rlp/encode.go:606-612 | the number of bytes of the shortest form, one for zero |
| `RlpEncoder.PutHead` | 工程化实践/pdx-chain-so/pkg/pdx-chain/rlp/encode.go:123-136 | writes the list or string header and returns its length |
| `RlpEncoder.MergeEncodes` | 工程化实践/pdx-chain-so/pkg/pdx-chain/rlp/encode.go:184-219 | the data and the deferred list headers of any item merge to its recursive encoding |
| `RlpEncoder.EncBuf.constructor` | 工程化实践/pdx-chain-so/pkg/pdx-chain/rlp/encode.go:138-146 | an empty buffer |
| `RlpEncoder.EncBuf.EncodeString` | 工程化实践/pdx-chain-so/pkg/pdx-chain/rlp/encode.go:174-182 | appends the encoding of a string to the data |
| `RlpEncoder.EncBuf.List` | 工程化实践/pdx-chain-so/pkg/pdx-chain/rlp/encode.go:184-188 | opens a list whose header is left for later |
| `RlpEncoder.EncBuf.ListEnd` | 工程化实践/pdx-chain-so/pkg/pdx-chain/rlp/encode.go:190-197 | closes it: the header size counts the headers deferred inside it |
| `RlpEncoder.EncBuf.Write` | 工程化实践/pdx-chain-so/pkg/pdx-chain/rlp/encode.go:442-476 | writing an item appends its data and its deferred headers, in order and with final sizes |
| `RlpEncoder.EncBuf.ToBytes` | 工程化实践/pdx-chain-so/pkg/pdx-chain/rlp/encode.go:203-219 | a buffer holding the items written so far becomes their encoding |
| `RlpEncoder.EncodeToBytes` | 工程化实践/pdx-chain-so/pkg/pdx-chain/rlp/encode.go:70-78 | the encoding of every item |
| `RlpEncoder.EncReader.Next` | 工程化实践/pdx-chain-so/pkg/pdx-chain/rlp/encode.go:279-310 | the next piece and what remains make up what remained |
| `RlpEncoder.EncReader.Read` | 工程化实践/pdx-chain-so/pkg/pdx-chain/rlp/encode.go:254-275 | the bytes delivered and what remains make up what remained; fewer than asked for only at the end |
| `RlpEncoder.EncodeToReader` | 工程化实践/pdx-chain-so/pkg/pdx-chain/rlp/encode.go:85-104 | the size of the encoding and a reader whose remaining bytes are it |
| `RlpEncoder.ReadInPieces` | 工程化实践/pdx-chain-so/pkg/pdx-chain/rlp/encode.go:254-310 | any sequence of read sizes delivers a prefix of the encoding, all of it once the sizes suffice |
| `RlpDecoder.StreamHeadAgrees` | 工程化实践/pdx-chain-so/pkg/pdx-chain/rlp/decode.go:857-917 | the stream accepts the heads that the slice parser accepts, with the same kind and extent, and besides them a header before a single byte below 128, which is left to the reader of the string |
| `RlpDecoder.StreamHeadCanonical` | 工程化实践/pdx-chain-so/pkg/pdx-chain/rlp/decode.go:824-855 | a head that passes the size and canonicality checks is the head of the format |
| `RlpDecoder.NestedAdvance` | 工程化实践/pdx-chain-so/pkg/pdx-chain/rlp/decode.go:971-989 | consuming bytes keeps every open list within its parent and the input |
| `RlpDecoder.Stream.constructor` | 工程化实践/pdx-chain-so/pkg/pdx-chain/rlp/decode.go:778-811 | a stream over bytes limits itself to their number |
| `RlpDecoder.Stream.WillRead` | 工程化实践/pdx-chain-so/pkg/pdx-chain/rlp/decode.go:971-989 | fails exactly when the innermost list or the input is too short, and then charges nothing; otherwise accounts for the bytes |
| `RlpDecoder.Stream.ReadSize` | 工程化实践/pdx-chain-so/pkg/pdx-chain/rlp/decode.go:919-943 | the size that the bytes spell, exactly when it is canonical; within the limits on success and on failure |
| `RlpDecoder.Stream.ReadKind` | 工程化实践/pdx-chain-so/pkg/pdx-chain/rlp/decode.go:857-917 | the head of the next value, consumed, exactly where there is one; within the limits on success and on failure |
| `RlpDecoder.Stream.Kind` | 工程化实践/pdx-chain-so/pkg/pdx-chain/rlp/decode.go:824-855 | from any state: cached information if there is any; else the head at the position, or the end of the list, or an error that is remembered with the cursor where it stopped; the limits hold on every path |
| `RlpDecoder.Stream.Bytes` | 工程化实践/pdx-chain-so/pkg/pdx-chain/rlp/decode.go:602-623 | from any state: the content of the string or byte ahead, rejecting a single byte with a header and, without losing it, a list; a remembered failure is repeated |
| `RlpDecoder.BytesEncode` | 工程化实践/pdx-chain-so/pkg/pdx-chain/rlp/decode.go:602-623 | what is returned is the string whose encoding was consumed |
| `RlpDecoder.Stream.Uint` | 工程化实践/pdx-chain-so/pkg/pdx-chain/rlp/decode.go:651-685 | from any state: the integer ahead, with the error for each way in which there is none; a remembered failure is repeated |
| `RlpDecoder.UintIff` | 工程化实践/pdx-chain-so/pkg/pdx-chain/rlp/decode.go:651-685 | an integer is accepted, and is this number, if and only if the bytes begin with what AppendUint64 writes for it and it fits the size |
| `RlpDecoder.Stream.List` | 工程化实践/pdx-chain-so/pkg/pdx-chain/rlp/decode.go:711-723 | from any state: opens the list ahead, charged to its parent, and refuses anything else without losing it; a remembered failure is repeated |
| `RlpDecoder.Stream.ListEnd` | 工程化实践/pdx-chain-so/pkg/pdx-chain/rlp/decode.go:727-742 | from any state: pops exactly a list that is used up, charging its size to its parent, and changes nothing otherwise |
| `RlpDecoder.Stream.DecodeInterface` | 工程化实践/pdx-chain-so/pkg/pdx-chain/rlp/decode.go:478-500 | from any state, header cached or not: succeeds exactly when the value ahead parses, with the parsed item, and moves past its bytes; a remembered failure is repeated |
| `RlpDecoder.Stream.DecodeListSlice` | 工程化实践/pdx-chain-so/pkg/pdx-chain/rlp/decode.go:274-287 | from any state: the elements of the list ahead, which must fill it, and an error for anything else; a remembered failure is repeated |
| `RlpDecoder.Stream.DecodeSliceElems` | 工程化实践/pdx-chain-so/pkg/pdx-chain/rlp/decode.go:289-316 | from any state: all values up to the end of the innermost list, exactly when they parse; a remembered failure is repeated |
| `RlpDecoder.Stream.Raw` | 工程化实践/pdx-chain-so/pkg/pdx-chain/rlp/decode.go:626-648 | from any state, header cached or not: exactly the bytes of the value ahead, header included |
| `RlpDecoder.Drive` | 工程化实践/pdx-chain-so/pkg/pdx-chain/rlp/decode.go:602-742 | in every run of Kind, Bytes, Uint, Raw, List, ListEnd and decoding calls, failing ones included, no list passes its end or its parent, the bytes consumed are the encoding of what was returned, and a failure is repeated until the list ends |
| `RlpDecoder.NestedWithinLimits` | 工程化实践/pdx-chain-so/pkg/pdx-chain/rlp/decode.go:568-596 | the counters on the stack say that every open list fits in what is left of its parent and of the input |
| `RlpDecoder.DecodeBytes` | 工程化实践/pdx-chain-so/pkg/pdx-chain/rlp/decode.go:88-108 | accepts exactly the encodings, with nothing after them, and returns the item encoded; when bytes follow a value the error says so |
| `RlpDecoder.RoundTrip` | 工程化实践/pdx-chain-so/pkg/pdx-chain/rlp/decode.go:88-108 | decoding what the encoder wrote gives every nested item back |
| `StateSpec.GetOrNew` | 工程化实践/pdx-chain-so/pkg/pdx-chain/core/state/statedb.go:440-447 | an account that exists is loaded, any other is created; a live object results |
| `StateSpec.Search` | 工程化实践/pdx-chain-so/pkg/pdx-chain/core/state/statedb.go:537-539 | the first snapshot whose id is not below the wanted one |
| `StateJournal.ViewDecidesGetters` | 工程化实践/pdx-chain-so/pkg/pdx-chain/core/state/statedb.go:161-306 | two states with the same view answer every getter alike |
| `StateJournal.UndoSame` | 工程化实践/pdx-chain-so/pkg/pdx-chain/core/state/journal.go:141-237 | undoing an entry from states with the same view gives the same view |
| `StateJournal.RevertLastKeepsHistory` | 工程化实践/pdx-chain-so/pkg/pdx-chain/core/state/journal.go:60-73 | the last entry is reverted against a live object and leads to the view before it |
| `StateJournal.RevertToKeepsHistory` | 工程化实践/pdx-chain-so/pkg/pdx-chain/core/state/journal.go:60-73 | so is every entry down to the snapshot |
| `StateJournal.RevertToCounted` | 工程化实践/pdx-chain-so/pkg/pdx-chain/core/state/journal.go:60-73 | the dirty counters of a reverted journal are exact again |
| `StateJournal.SetterKeepsInv` | 工程化实践/pdx-chain-so/pkg/pdx-chain/core/state/state_object.go:209-419 | every journaled setter can be undone, whatever it changes |
| `StateJournal.SnapshotKeepsInv` | 工程化实践/pdx-chain-so/pkg/pdx-chain/core/state/statedb.go:527-532 | snapshot ids and positions keep increasing |
| `StateJournal.RevertKeepsInv` | 工程化实践/pdx-chain-so/pkg/pdx-chain/core/state/statedb.go:535-548 | panics if and only if the id is not on the stack; otherwise the view of that snapshot is back |
| `StateJournal.StepKeepsInv` | 工程化实践/pdx-chain-so/pkg/pdx-chain/core/state/statedb.go:142-548 | every call of the interface keeps the invariant |
| `StateJournal.RunKeepsInv` | 工程化实践/pdx-chain-so/pkg/pdx-chain/core/state/statedb.go:142-548 | so does every run |
| `StateJournal.RevertRestores` | 工程化实践/pdx-chain-so/pkg/pdx-chain/core/state/statedb.go:527-548 | for every run, every snapshot in it and every continuation: reverting to it panics exactly if the continuation reverted to it or to an older one, and otherwise restores what every getter says |
| `StateJournal.RunKeepsId` | 工程化实践/pdx-chain-so/pkg/pdx-chain/core/state/statedb.go:527-548 | in every run an id stays on the stack exactly while nothing is reverted to it or to an older one |
| `StateJournal.RunBookkeeping` | 工程化实践/pdx-chain-so/pkg/pdx-chain/core/state/journal.go:51-80 | in every run the dirty count of an account is the number of entries dirtying it, plus for RIPEMD the number of zero amounts it got while empty or absent, and the snapshots are strictly ordered |
| `StateLaws.DerivedGetters` | 工程化实践/pdx-chain-so/pkg/pdx-chain/core/state/statedb.go:163-259 | emptiness and code size follow from the other getters, all of which are zero for an account that is not there |
| `StateLaws.AddLaw` | 工程化实践/pdx-chain-so/pkg/pdx-chain/core/state/state_object.go:313-324 | in every state the balance getter rises by the amount, and every other getter of every account, the refund counter and the preimages stay; an account that was not there now is, with the hash of no code |
| `StateLaws.SubLaw` | 工程化实践/pdx-chain-so/pkg/pdx-chain/core/state/state_object.go:328-333 | so for subtracting: the balance getter falls by the amount |
| `StateLaws.SetLaw` | 工程化实践/pdx-chain-so/pkg/pdx-chain/core/state/state_object.go:335-345 | the balance getter is the value, nothing else differs |
| `StateLaws.NonceLaw` | 工程化实践/pdx-chain-so/pkg/pdx-chain/core/state/state_object.go:409-419 | the nonce getter is the value, nothing else differs |
| `StateLaws.CodeLaw` | 工程化实践/pdx-chain-so/pkg/pdx-chain/core/state/state_object.go:393-407 | the code getter is the code and the hash getter its hash, nothing else differs |
| `StateLaws.WordLaw` | 工程化实践/pdx-chain-so/pkg/pdx-chain/core/state/state_object.go:209-221 | the word of the key is the value, no other word and nothing else differs |
| `StateLaws.RawLaw` | 工程化实践/pdx-chain-so/pkg/pdx-chain/core/state/state_object.go:244-265 | so for raw values |
| `StateLaws.SuicideLaw` | 工程化实践/pdx-chain-so/pkg/pdx-chain/core/state/statedb.go:371-385 | an account that is there is marked with balance zero, its nonce, code and storage still answer, and nothing else differs; an absent one is left alone |
| `StateLaws.CreateLaw` | 工程化实践/pdx-chain-so/pkg/pdx-chain/core/state/statedb.go:474-480 | the account has its old balance, nonce zero, no code, every word and raw value empty, and no mark |
| `StateLaws.RefundLaw` | 工程化实践/pdx-chain-so/pkg/pdx-chain/core/state/statedb.go:156-160 | the counter grows modulo 2^64 and nothing else differs |
| `StateLaws.PreimageLaw` | 工程化实践/pdx-chain-so/pkg/pdx-chain/core/state/statedb.go:142-150 | only an unknown hash is stored, and nothing else differs |
| `StateLaws.ReadLaw` | 工程化实践/pdx-chain-so/pkg/pdx-chain/core/state/statedb.go:161-306 | reading, which fills caches, and taking a snapshot change no answer |
| `StateLedger.CallShows` | 工程化实践/pdx-chain-so/pkg/pdx-chain/core/state/statedb.go:142-480 | in a state that answers like a world of plain records, every call leaves one that answers like the changed world |
| `StateLedger.RevertMirrors` | 工程化实践/pdx-chain-so/pkg/pdx-chain/core/state/statedb.go:527-548 | undoing the journal is putting back the copy of the world that the snapshot took, or a panic in both |
| `StateLedger.RunIsLedger` | 工程化实践/pdx-chain-so/pkg/pdx-chain/core/state/statedb.go:142-551 | for every database and every sequence of calls: the state with live objects, caches and a journal panics exactly where the world that is copied at each snapshot does, and otherwise answers every getter, the refund counter, the preimages and the next snapshot id alike |
| `StorageTrie.FlushStep` | 工程化实践/pdx-chain-so/pkg/pdx-chain/core/state/state_object.go:268-292 | any pending write may be made first, so the map iteration order does not matter |
| `StorageTrie.StoredReads` | 工程化实践/pdx-chain-so/pkg/pdx-chain/core/state/state_object.go:186-206 | a word written to the trie as a trimmed string reads back through Split and left padding |
| `StorageTrie.FlushedReads` | 工程化实践/pdx-chain-so/pkg/pdx-chain/core/state/state_object.go:186-292 | after updateTrie the trie alone gives the value that the caches gave, for both kinds of keys |
| `StorageTrie.RunKeeps` | 工程化实践/pdx-chain-so/pkg/pdx-chain/core/state/state_object.go:186-292 | over every history of reads, writes and flushes the caches read as a plain map |
| `StorageTrie.StorageIsAMap` | 工程化实践/pdx-chain-so/pkg/pdx-chain/core/state/state_object.go:186-292 | both of these for a new object, with both dirty maps empty after the flush |
| `StorageTrie.StorageIff` | 工程化实践/pdx-chain-so/pkg/pdx-chain/core/state/state_object.go:186-292 | every history that keeps to some word keys and some raw keys reads as a plain map, before and after the flush, if and only if no key is both |
| `StorageTrie.SharedReadsWrong` | 工程化实践/pdx-chain-so/pkg/pdx-chain/core/state/state_object.go:268-292 | for every shared key, a history of two writes that reads wrong |
| `StorageTrie.SharedKeyGoesStale` | 工程化实践/pdx-chain-so/pkg/pdx-chain/core/state/state_object.go:268-292 | after them the cache of any object gives the word and the trie the bytes |
| `StateDb.StateObject.constructor` | 工程化实践/pdx-chain-so/pkg/pdx-chain/core/state/state_object.go:127-144 | the object of an account, with empty caches |
| `StateDb.StateObject.GetState` | 工程化实践/pdx-chain-so/pkg/pdx-chain/core/state/state_object.go:186-206 | the cached word or the one in the trie, which is then cached |
| `StateDb.StateObject.GetPDXState` | 工程化实践/pdx-chain-so/pkg/pdx-chain/core/state/state_object.go:224-241 | the cached bytes or those in the trie, not cached |
| `StateDb.StateObject.Code` | 工程化实践/pdx-chain-so/pkg/pdx-chain/core/state/state_object.go:378-391 | the code, loaded once |
| `StateDb.StateObject.StoreState` | 工程化实践/pdx-chain-so/pkg/pdx-chain/core/state/state_object.go:218-221 | the word in the cache and among the dirty ones, nothing else changed |
| `StateDb.StateObject.StorePdx` | 工程化实践/pdx-chain-so/pkg/pdx-chain/core/state/state_object.go:261-265 | the same for raw values |
| `StateDb.StateObject.UpdateTrie` | 工程化实践/pdx-chain-so/pkg/pdx-chain/core/state/state_object.go:268-292 | in whatever order the maps are drained, the trie holds every pending write and both dirty maps are empty |
| `StateDb.StateDB.constructor` | 工程化实践/pdx-chain-so/pkg/pdx-chain/core/state/statedb.go:87-100 | an empty state over a database |
| `StateDb.StateDB.Written` | 工程化实践/pdx-chain-so/pkg/pdx-chain/core/state/statedb.go:435-437 | a write to one live object changes its entry of the abstract state only, because no journal entry keeps a live object |
| `StateDb.StateDB.Append` | 工程化实践/pdx-chain-so/pkg/pdx-chain/core/state/journal.go:51-56 | the entry at the end and the dirty count up |
| `StateDb.StateDB.GetStateObject` | 工程化实践/pdx-chain-so/pkg/pdx-chain/core/state/statedb.go:409-433 | the live object, or one loaded and kept, or none if deleted or absent |
| `StateDb.StateDB.GetBalance` | 工程化实践/pdx-chain-so/pkg/pdx-chain/core/state/statedb.go:175-181 | the balance getter of the abstract state |
| `StateDb.StateDB.GetState` | 工程化实践/pdx-chain-so/pkg/pdx-chain/core/state/statedb.go:268-274 | the storage getter of the abstract state; the state only gains a cached word |
| `StateDb.StateDB.GetCode` | 工程化实践/pdx-chain-so/pkg/pdx-chain/core/state/statedb.go:211-225 | the code getter of the abstract state |
| `StateDb.StateDB.GetPDXState` | 工程化实践/pdx-chain-so/pkg/pdx-chain/core/state/statedb.go:276-282 | the raw storage getter of the abstract state |
| `StateDb.StateDB.CreateObject` | 工程化实践/pdx-chain-so/pkg/pdx-chain/core/state/statedb.go:451-462 | a new object in the place of the old one, which only the journal keeps |
| `StateDb.StateDB.CreateAccount` | 工程化实践/pdx-chain-so/pkg/pdx-chain/core/state/statedb.go:474-479 | the account is new but keeps its balance; no other account answers differently |
| `StateDb.StateDB.GetOrNewStateObject` | 工程化实践/pdx-chain-so/pkg/pdx-chain/core/state/statedb.go:440-447 | the live object of an account, made if there is none |
| `StateDb.StateDB.SetBalance` | 工程化实践/pdx-chain-so/pkg/pdx-chain/core/state/statedb.go:328-333 | one step of the value machine, on objects updated in place: GetBalance is the value |
| `StateDb.StateDB.AddBalance` | 工程化实践/pdx-chain-so/pkg/pdx-chain/core/state/state_object.go:313-324 | one step, touching an empty account for a zero amount: GetBalance is the old one and the amount |
| `StateDb.StateDB.SubBalance` | 工程化实践/pdx-chain-so/pkg/pdx-chain/core/state/state_object.go:328-333 | one step, doing nothing for a zero amount: GetBalance is the old one less the amount |
| `StateDb.StateDB.Touch` | 工程化实践/pdx-chain-so/pkg/pdx-chain/core/state/state_object.go:162-171 | a touch entry, and a second dirty mark for RIPEMD |
| `StateDb.StateDB.SetNonce` | 工程化实践/pdx-chain-so/pkg/pdx-chain/core/state/state_object.go:409-415 | one step: GetNonce is the value |
| `StateDb.StateDB.SetCode` | 工程化实践/pdx-chain-so/pkg/pdx-chain/core/state/state_object.go:393-401 | one step, with the old code read first: GetCode is the code and GetCodeHash its hash |
| `StateDb.StateDB.SetState` | 工程化实践/pdx-chain-so/pkg/pdx-chain/core/state/state_object.go:209-216 | one step, with the old word read and cached first: GetState is the word |
| `StateDb.StateDB.SetPDXState` | 工程化实践/pdx-chain-so/pkg/pdx-chain/core/state/state_object.go:244-259 | one step: GetPDXState is the value |
| `StateDb.StateDB.Suicide` | 工程化实践/pdx-chain-so/pkg/pdx-chain/core/state/statedb.go:371-385 | says whether there is such an account, marks it and takes its balance; no other account answers differently |
| `StateDb.StateDB.AddRefund` | 工程化实践/pdx-chain-so/pkg/pdx-chain/core/state/statedb.go:156-159 | the counter plus the gas modulo 2^64, journaled |
| `StateDb.StateDB.AddPreimage` | 工程化实践/pdx-chain-so/pkg/pdx-chain/core/state/statedb.go:142-149 | a hash not yet known is journaled and stored, a known one left |
| `StateDb.StateDB.Snapshot` | 工程化实践/pdx-chain-so/pkg/pdx-chain/core/state/statedb.go:527-532 | a fresh id for the current length of the journal |
| `StateDb.StateDB.RevertEntry` | 工程化实践/pdx-chain-so/pkg/pdx-chain/core/state/journal.go:141-237 | one entry undone on the heap as on values, failing exactly on a missing object |
| `StateDb.StateDB.RevertLast` | 工程化实践/pdx-chain-so/pkg/pdx-chain/core/state/journal.go:60-73 | one pass of the loop, dirty count included |
| `StateDb.StateDB.Revert` | 工程化实践/pdx-chain-so/pkg/pdx-chain/core/state/journal.go:60-73 | the whole loop |
| `StateDb.StateDB.FindRevision` | 工程化实践/pdx-chain-so/pkg/pdx-chain/core/state/statedb.go:537-539 | binary search over the ordered ids finds what a linear search finds |
| `StateDb.StateDB.RevertToSnapshot` | 工程化实践/pdx-chain-so/pkg/pdx-chain/core/state/statedb.go:535-548 | the revert of the value machine, panic for panic |
| `Lattice.RoundError` | 工程化实践/pdx-chain-so/pkg/pdx-chain/crypto/bn256/cloudflare/lattice.go:107-115 | how far the rounded quotient can be off on either side |
| `Lattice.RoundIsNearestIff` | 工程化实践/pdx-chain-so/pkg/pdx-chain/crypto/bn256/cloudflare/lattice.go:107-115 | the quotient is a nearest integer, as the comment says, if and only if the remainder is on the same side of half the order as of half the denominator |
| `Lattice.CurveRoundsOff` | 工程化实践/pdx-chain-so/pkg/pdx-chain/crypto/bn256/cloudflare/lattice.go:7-19 | with curveLattice, whose determinant is twice the order, it is not: a number rounded to the farther integer |
| `Lattice.Decompose` | 工程化实践/pdx-chain-so/pkg/pdx-chain/crypto/bn256/cloudflare/lattice.go:44-72 | the parts, for a lattice of any dimension |
| `Lattice.PartsRecombine` | 工程化实践/pdx-chain-so/pkg/pdx-chain/crypto/bn256/cloudflare/lattice.go:44-72 | for every lattice that vanishes under some weights, the weighted parts are congruent to the weighted scalar |
| `Lattice.CurveVanishes` | 工程化实践/pdx-chain-so/pkg/pdx-chain/crypto/bn256/cloudflare/lattice.go:9-19 | curveLattice vanishes under 1 and lambda modulo the order |
| `Lattice.CurveShort` | 工程化实践/pdx-chain-so/pkg/pdx-chain/crypto/bn256/cloudflare/lattice.go:9-19 | for every integer both parts are positive and below 2^129 |
| `Lattice.CurveRecombines` | 工程化实践/pdx-chain-so/pkg/pdx-chain/crypto/bn256/cloudflare/lattice.go:44-72 | for every integer the first part plus lambda times the second is congruent to it modulo the order |
| `Lattice.TargetShort` | 工程化实践/pdx-chain-so/pkg/pdx-chain/crypto/bn256/cloudflare/lattice.go:21-35 | for every integer the four parts along targetLattice are positive and below 2^66 |
| `Lattice.TargetVanishes` | 工程化实践/pdx-chain-so/pkg/pdx-chain/crypto/bn256/cloudflare/lattice.go:21-35 | targetLattice vanishes under the powers of its eigenvalue modulo the order |
| `Lattice.TargetRecombines` | 工程化实践/pdx-chain-so/pkg/pdx-chain/crypto/bn256/cloudflare/lattice.go:44-72 | for every integer the four parts, weighted with those powers, add up to it modulo the order |
| `Lattice.Multi` | 工程化实践/pdx-chain-so/pkg/pdx-chain/crypto/bn256/cloudflare/lattice.go:87-105 | the joint digits: bit i of every part, no 8-bit cell overflowing, as many as the longest part has bits |
| `Curves.Bn256Parameter` | 工程化实践/pdx-chain-so/pkg/pdx-chain/crypto/bn256/cloudflare/constants.go:16-23 | prime and order are the two polynomials of the comments in u, while u is not the cube that its comment gives |
| `Curves.Bls12381Parameter` | 工程化实践/pdx-chain-so/pkg/pdx-chain/crypto/bls12381/bls12_381.go:23-30 | the modulus is the polynomial of BLS12 curves in -0xd201000000010000 |
| `CurvePoint.JointStep` | 工程化实践/pdx-chain-so/pkg/pdx-chain/crypto/bn256/cloudflare/curve.go:195-205 | doubling and adding the table entry of the two bits brings in one more bit of both scalars |
| `CurvePoint.Mul` | 工程化实践/pdx-chain-so/pkg/pdx-chain/crypto/bn256/cloudflare/curve.go:185-207 | k times the point for every integer k, in any group where the order kills the point and the endomorphism acts as lambda |
| `MultiExp.MulScalar` | 工程化实践/pdx-chain-so/pkg/pdx-chain/crypto/bls12381/g1.go:345-356 | e times the point, for every e |
| `MultiExp.RunningAdd` | 工程化实践/pdx-chain-so/pkg/pdx-chain/crypto/bls12381/g1.go:400-403 | a point put into bucket x counts x + 1 times in the sum of running totals |
| `MultiExp.FillBuckets` | 工程化实践/pdx-chain-so/pkg/pdx-chain/crypto/bls12381/g1.go:386-398 | the buckets hold the sum of the low digits times the points, and the digits are shifted out of the exponents |
| `MultiExp.DrainBuckets` | 工程化实践/pdx-chain-so/pkg/pdx-chain/crypto/bls12381/g1.go:399-403 | the sum of running totals |
| `MultiExp.WindowFits` | 工程化实践/pdx-chain-so/pkg/pdx-chain/crypto/bls12381/g1.go:376-408 | the loop runs exactly as often as there are window slots |
| `MultiExp.FillWindows` | 工程化实践/pdx-chain-so/pkg/pdx-chain/crypto/bls12381/g1.go:383-408 | every slot is filled, with the sum for its digits |
| `MultiExp.TailSum` | 工程化实践/pdx-chain-so/pkg/pdx-chain/crypto/bls12381/g1.go:409-415 | shifting a sum by a window and adding the next gives the sum for one more window |
| `MultiExp.Collect` | 工程化实践/pdx-chain-so/pkg/pdx-chain/crypto/bls12381/g1.go:409-415 | the windows combine to the sum for all their digits |
| `MultiExp.MultiExp` | 工程化实践/pdx-chain-so/pkg/pdx-chain/crypto/bls12381/g1.go:367-417 | the length error exactly for different lengths; otherwise, for any window width, the sum of the points times the exponents, cut to the windows, and in full for exponents below 2^256, which end up shifted to zero |
| `Sponge.PadIsPad10Star1` | 工程化实践/pdx-chain-so/pkg/pdx-chain/crypto/sha3/sha3.go:97-122 | bit for bit, the padding is the suffix, a one, as few zeros as fill the block, and a one |
| `Sponge.BlockIsOutput` | 工程化实践/pdx-chain-so/pkg/pdx-chain/crypto/sha3/sha3.go:161-182 | the unread part of the buffer is the next part of the output |
| `Sponge.State.constructor` | 工程化实践/pdx-chain-so/pkg/pdx-chain/crypto/sha3/hashes.go:20-65 | a sponge that has absorbed nothing |
| `Sponge.State.Reset` | 工程化实践/pdx-chain-so/pkg/pdx-chain/crypto/sha3/sha3.go:58-65 | the same again |
| `Sponge.State.Write` | 工程化实践/pdx-chain-so/pkg/pdx-chain/crypto/sha3/sha3.go:126-158 | appends to the absorbed message, the buffer staying shorter than a block; refused after a read |
| `Sponge.State.PadAndPermute` | 工程化实践/pdx-chain-so/pkg/pdx-chain/crypto/sha3/sha3.go:99-122 | turns to squeezing the state that has absorbed the padded message |
| `Sponge.State.Read` | 工程化实践/pdx-chain-so/pkg/pdx-chain/crypto/sha3/sha3.go:161-182 | the next bytes of the output, wherever blocks end |
| `Sponge.State.Sum` | 工程化实践/pdx-chain-so/pkg/pdx-chain/crypto/sha3/sha3.go:186-193 | while absorbing the hash of what was written so far, changing nothing; after a read the output from 168 - rate bytes before the position, or a panic if the block holds fewer before it |
| `Sponge.State.Clone` | 工程化实践/pdx-chain-so/pkg/pdx-chain/crypto/sha3/sha3.go:67-76 | while absorbing a copy; while squeezing a copy whose position is 168 - rate bytes too early, or a panic |
| `Sponge.SumAfterReadIff` | 工程化实践/pdx-chain-so/pkg/pdx-chain/crypto/sha3/sha3.go:67-76 | after a read to any place a sum goes on with the output, as a copy in its current state would, for every permutation and message if and only if the rate is 168 |
| `Sponge.NeverGoesOn` | 工程化实践/pdx-chain-so/pkg/pdx-chain/crypto/sha3/sha3.go:67-76 | for every lower rate it panics for every permutation and message as long as fewer than 168 - rate bytes of the block were read |
| `Sponge.HashInPieces` | 工程化实践/pdx-chain-so/pkg/pdx-chain/crypto/sha3/sha3.go:126-193 | any cut into writes and reads, with sums in between, gives the bytes of the one-shot sponge |
| `Blake2F.TableIsSigma` | 工程化实践/pdx-chain-so/pkg/pdx-chain/crypto/blake2b/blake2b_generic.go:15-26 | the table is the SIGMA of RFC 7693, first words of the four columns before second ones |
| `Blake2F.MixColumns` | 工程化实践/pdx-chain-so/pkg/pdx-chain/crypto/blake2b/blake2b_generic.go:56-112 | the interleaved first half of a round mixes the four columns one after the other with G |
| `Blake2F.MixDiagonals` | 工程化实践/pdx-chain-so/pkg/pdx-chain/crypto/blake2b/blake2b_generic.go:114-170 | the second half mixes the four diagonals |
| `Blake2F.FGeneric` | 工程化实践/pdx-chain-so/pkg/pdx-chain/crypto/blake2b/blake2b_generic.go:46-180 | the compression in place is F of section 3.2 of RFC 7693, for any number of rounds |
| `Blake2b.CountUp` | 工程化实践/pdx-chain-so/pkg/pdx-chain/crypto/blake2b/blake2b.go:160-164 | the two counter words advance by a block modulo 2^128 |
| `Blake2b.CountDown` | 工程化实践/pdx-chain-so/pkg/pdx-chain/crypto/blake2b/blake2b.go:143-147 | the two counter words go back by what the last block falls short of, modulo 2^128 |
| `Blake2b.HashBlocks` | 工程化实践/pdx-chain-so/pkg/pdx-chain/crypto/blake2b/blake2b.go:156-172 | the chain value and the counter after all blocks |
| `Blake2b.LastBlock` | 工程化实践/pdx-chain-so/pkg/pdx-chain/crypto/blake2b/blake2b.go:280-297 | the last compression sees the message length modulo 2^128 |
| `Blake2b.NewDigest` | 工程化实践/pdx-chain-so/pkg/pdx-chain/crypto/blake2b/blake2b.go:111-125 | the two errors, the one for the size first; otherwise a digest that has absorbed the key block, if there is a key |
| `Blake2b.Digest.constructor` | 工程化实践/pdx-chain-so/pkg/pdx-chain/crypto/blake2b/blake2b.go:118-124 | that digest |
| `Blake2b.CheckSum` | 工程化实践/pdx-chain-so/pkg/pdx-chain/crypto/blake2b/blake2b.go:127-154 | the first words of the hash of the whole message, as many as hold the hash size, and zeros |
| `Blake2b.Digest.Reset` | 工程化实践/pdx-chain-so/pkg/pdx-chain/crypto/blake2b/blake2b.go:233-241 | the chain value of the size and key length, and the key block, if there is a key, as all that was absorbed |
| `Blake2b.Digest.Write` | 工程化实践/pdx-chain-so/pkg/pdx-chain/crypto/blake2b/blake2b.go:243-272 | appends to the message, always keeping the last block back |
| `Blake2b.Digest.Finalize` | 工程化实践/pdx-chain-so/pkg/pdx-chain/crypto/blake2b/blake2b.go:280-297 | the hash of what was written so far, changing nothing |
| `Blake2b.Digest.Sum` | 工程化实践/pdx-chain-so/pkg/pdx-chain/crypto/blake2b/blake2b.go:274-278 | the first bytes of it, as many as the size, after the given prefix |
| `Blake2b.DigestInPieces` | 工程化实践/pdx-chain-so/pkg/pdx-chain/crypto/blake2b/blake2b.go:127-297 | any cut of the message into writes ends in the hash of the key block and the whole, and so does every sum on the way; without a key that is the one-shot checksum |
| `Blake2x.Xof.constructor` | 工程化实践/pdx-chain-so/pkg/pdx-chain/crypto/blake2b/blake2x.go:62-71 | an output that has absorbed nothing but its key |
| `Blake2x.NewXOF` | 工程化实践/pdx-chain-so/pkg/pdx-chain/crypto/blake2b/blake2x.go:50-72 | the errors for the key and for the length that is reserved; length 0 gives up to 2^38 bytes, any other that many |
| `Blake2x.ConfigIs` | 工程化实践/pdx-chain-so/pkg/pdx-chain/crypto/blake2b/blake2x.go:96-101 | the block that Reset fills in place and Read updates is the parameter block of the node |
| `Blake2x.Xof.Reset` | 工程化实践/pdx-chain-so/pkg/pdx-chain/crypto/blake2b/blake2x.go:96-111 | the same again |
| `Blake2x.Xof.Write` | 工程化实践/pdx-chain-so/pkg/pdx-chain/crypto/blake2b/blake2x.go:84-89 | appends to the message; refused after a read |
| `Blake2x.Xof.NextNode` | 工程化实践/pdx-chain-so/pkg/pdx-chain/crypto/blake2b/blake2x.go:143-148 | the hash of the root under the parameter block of the next node |
| `Blake2x.Xof.Read` | 工程化实践/pdx-chain-so/pkg/pdx-chain/crypto/blake2b/blake2x.go:113-170 | the next bytes of the output string, up to what remains; the end is reported exactly when nothing is left |
| `Blake2x.ReadInPieces` | 工程化实践/pdx-chain-so/pkg/pdx-chain/crypto/blake2b/blake2x.go:113-170 | any cut into reads gives the beginning of one string |
| `Blake2Words.SumOfWords` | 工程化实践/pdx-chain-so/pkg/pdx-chain/crypto/blake2b/blake2b_generic.go:56-170 | a sum of words is the sum of the numbers that their bits spell, modulo 2^64 |
| `Blake2Words.GIs` | 工程化实践/pdx-chain-so/pkg/pdx-chain/crypto/blake2b/blake2b_generic.go:56-170 | G of section 3.1 of RFC 7693: sums modulo 2^64, and bits xored and turned by 32, 24, 16 and 63 |
| `Blake2Words.IvIsRoot` | 工程化实践/pdx-chain-so/pkg/pdx-chain/crypto/blake2b/blake2b.go:47-50 | word i of the vector is the integer part of 2^64 times the fraction of the root of the i-th prime |
| `Blake2Words.FlagBits` | 工程化实践/pdx-chain-so/pkg/pdx-chain/crypto/blake2b/blake2b.go:149 | the flag has all 64 bits for the last block and none for the others |
| `Blake2Words.WordSpells` | 工程化实践/pdx-chain-so/pkg/pdx-chain/crypto/blake2b/blake2b.go:156-172 | a word of the counter spells its number |
| `Blake2Words.WorkingIs` | 工程化实践/pdx-chain-so/pkg/pdx-chain/crypto/blake2b/blake2b_generic.go:46-54 | the working vector bit by bit: chain value, vector, counter in words 12 and 13, word 14 inverted for the last block |
| `Blake2Words.FoldedIs` | 工程化实践/pdx-chain-so/pkg/pdx-chain/crypto/blake2b/blake2b_generic.go:172-179 | the result bit by bit: both halves of the vector added to the chain value |
| `Blake2Words.StartIs` | 工程化实践/pdx-chain-so/pkg/pdx-chain/crypto/blake2b/blake2b.go:233-236 | the start value is that of the parameter block of size, key length, 1, 1 and 60 zeros |
| `Blake2Words.RootStartIs` | 工程化实践/pdx-chain-so/pkg/pdx-chain/crypto/blake2b/blake2x.go:96-111 | that of the root has the output length in bytes 12 to 15 besides |
| `Blake2Words.NodeBlockIs` | 工程化实践/pdx-chain-so/pkg/pdx-chain/crypto/blake2b/blake2x.go:96-101 | the parameter block of a node, field by field as numbers |
| `Blake2Rfc.AfterIs` | 工程化实践/pdx-chain-so/pkg/pdx-chain/crypto/blake2b/blake2b.go:156-172 | the chain value after whole blocks is that of the numbered blocks, each with its own counter |
| `Blake2Rfc.HashIs` | 工程化实践/pdx-chain-so/pkg/pdx-chain/crypto/blake2b/blake2b.go:280-297 | for every start value and message: the buffered hash is that of the numbered blocks, the last one filled up with zeros and flagged |
| `Blake2Rfc.WordBit` | 工程化实践/pdx-chain-so/pkg/pdx-chain/crypto/blake2b/blake2b_generic.go:37-40 | the words of a block are little-endian, bit by bit |
| `Blake2Rfc.DigestBit` | 工程化实践/pdx-chain-so/pkg/pdx-chain/crypto/blake2b/blake2b.go:292-296 | and so are the bytes of the digest |
| `Blake2Rfc.HashPieces` | 工程化实践/pdx-chain-so/pkg/pdx-chain/crypto/blake2b/blake2b.go:233-297 | the digest of a message in any pieces, and every sum on the way, is section 3.3 of RFC 7693 of the key block and the message |
| `Blake2Rfc.Checksum` | 工程化实践/pdx-chain-so/pkg/pdx-chain/crypto/blake2b/blake2b.go:127-154 | and so is the one-shot checksum |
| `Blake2Rfc.Expand` | 工程化实践/pdx-chain-so/pkg/pdx-chain/crypto/blake2b/blake2x.go:50-170 | byte i of an output written and read in any pieces is byte i mod 64 of the hash of the root under the parameter block of node i / 64, and it ends at the length |
| `Sstack.LessIsRank` | 工程化实践/pdx-chain-so/pkg/pdx-chain/common/prque/sstack.go:8-11 | within a spread of less than 2^63 the wrapped comparison is a linear order |
| `Sstack.LessOnCircle` | 工程化实践/pdx-chain-so/pkg/pdx-chain/common/prque/sstack.go:88-90 | an item comes before another exactly if the difference of their priorities modulo 2^64 lies from 1 to 2^63 - 1 |
| `Sstack.LessIsGreater` | 工程化实践/pdx-chain-so/pkg/pdx-chain/common/prque/sstack.go:88-90 | for priorities less than 2^63 apart that is the greater priority |
| `Sstack.FitsIff` | 工程化实践/pdx-chain-so/pkg/pdx-chain/common/prque/sstack.go:8-11 | priorities lie within 2^63 of each other, wherever that is, if and only if one of them is less than that below all others |
| `Sstack.Stack.constructor` | 工程化实践/pdx-chain-so/pkg/pdx-chain/common/prque/sstack.go:36-43 | an empty stack with one block |
| `Sstack.Stack.Push` | 工程化实践/pdx-chain-so/pkg/pdx-chain/common/prque/sstack.go:47-63 | appends to the sequence of items, allocating or reusing a block as needed |
| `Sstack.Stack.Pop` | 工程化实践/pdx-chain-so/pkg/pdx-chain/common/prque/sstack.go:67-79 | takes the last item of the sequence and reports its index as -1 |
| `Sstack.Stack.IsLess` | 工程化实践/pdx-chain-so/pkg/pdx-chain/common/prque/sstack.go:88-90 | compares the items at two positions of the sequence |
| `Sstack.Stack.Swap` | 工程化实践/pdx-chain-so/pkg/pdx-chain/common/prque/sstack.go:93-101 | exchanges the items at two positions and reports both indices |
| `Prque.SwapIndexed` | 工程化实践/pdx-chain-so/pkg/pdx-chain/common/prque/sstack.go:93-101 | reporting both indices keeps all reported indices exact |
| `Prque.RiseStep` | 工程化实践/pdx-chain-so/pkg/pdx-chain/common/prque/prque.go:20-22 | an item that is too high may only be too high after it passed its parent |
| `Prque.SinkStep` | 工程化实践/pdx-chain-so/pkg/pdx-chain/common/prque/prque.go:26-29 | an item that is too low may only be too low after the first of its children passed it |
| `Prque.HeapInWindow` | 工程化实践/pdx-chain-so/pkg/pdx-chain/common/prque/sstack.go:8-11 | in every window that holds the items, order by the wrapped comparison is order by rank, so that the window may move |
| `Prque.Up` | 工程化实践/pdx-chain-so/pkg/pdx-chain/common/prque/prque.go:20-22 | restores the heap from an item that is too high |
| `Prque.Down` | 工程化实践/pdx-chain-so/pkg/pdx-chain/common/prque/prque.go:26-29 | restores the heap from an item that is too low, or moves nothing |
| `Prque.Queue.constructor` | 工程化实践/pdx-chain-so/pkg/pdx-chain/common/prque/prque.go:15-17 | an empty queue |
| `Prque.Queue.Push` | 工程化实践/pdx-chain-so/pkg/pdx-chain/common/prque/prque.go:20-22 | adds the item to the multiset, keeps the heap, and reports exact indices, as long as the contents fit some window, the same as before or another |
| `Prque.Queue.Pop` | 工程化实践/pdx-chain-so/pkg/pdx-chain/common/prque/prque.go:26-29 | removes an item that none in the queue comes before, keeps the heap, and reports it gone; for priorities within 2^63 above any number, none left is greater |
| `Prque.Queue.Remove` | 工程化实践/pdx-chain-so/pkg/pdx-chain/common/prque/prque.go:37-42 | removes exactly the item at the index, keeps the heap, and reports it gone; nothing for a negative index |
| `Prque.Drain` | 工程化实践/pdx-chain-so/pkg/pdx-chain/common/prque/prque.go:26-29 | popping to the end delivers every item once, in order; for priorities within 2^63 above any number they do not increase |
| `Prque.Drive` | 工程化实践/pdx-chain-so/pkg/pdx-chain/common/prque/prque.go:15-42 | in every sequence of pushes, pops and removals on a new queue, with priorities that may drift without end, nothing is lost or made up, every popped item comes after none in the queue, and the reported indices stay exact |
| `Gfp.CarryExact` | 工程化实践/pdx-chain-so/pkg/pdx-chain/crypto/bn256/cloudflare/gfp_generic.go:37-46 | the carry read off the top bits of both words and of their sum is the carry of the sum |
| `Gfp.BorrowExact` | 工程化实践/pdx-chain-so/pkg/pdx-chain/crypto/bn256/cloudflare/gfp_generic.go:5-15 | the borrow read off the top bits is the borrow of the difference |
| `Gfp.CarryFormula` | 工程化实践/pdx-chain-so/pkg/pdx-chain/crypto/bn256/cloudflare/gfp_generic.go:43 | on bit vectors the formula of the source is that carry |
| `Gfp.BorrowFormula` | 工程化实践/pdx-chain-so/pkg/pdx-chain/crypto/bn256/cloudflare/gfp_generic.go:56 | and this one that borrow |
| `Gfp.MasksSelect` | 工程化实践/pdx-chain-so/pkg/pdx-chain/crypto/bn256/cloudflare/gfp_generic.go:16-23 | the masks choose the reduced words unless a borrow is left that no carry covers |
| `Gfp.AddInto` | 工程化实践/pdx-chain-so/pkg/pdx-chain/crypto/bn256/cloudflare/gfp_generic.go:37-46 | the sum of two numbers of any length with its carry, in place or not |
| `Gfp.SubInto` | 工程化实践/pdx-chain-so/pkg/pdx-chain/crypto/bn256/cloudflare/gfp_generic.go:26-35 | the difference with its borrow, in place or not |
| `Gfp.Carry` | 工程化实践/pdx-chain-so/pkg/pdx-chain/crypto/bn256/cloudflare/gfp_generic.go:5-24 | brings a number below 2p, carry included, below p |
| `Gfp.Neg` | 工程化实践/pdx-chain-so/pkg/pdx-chain/crypto/bn256/cloudflare/gfp_generic.go:26-35 | the reduced additive inverse, zero for zero |
| `Gfp.Add` | 工程化实践/pdx-chain-so/pkg/pdx-chain/crypto/bn256/cloudflare/gfp_generic.go:37-46 | the reduced sum |
| `Gfp.Sub` | 工程化实践/pdx-chain-so/pkg/pdx-chain/crypto/bn256/cloudflare/gfp_generic.go:48-67 | the reduced difference |
| `Gfp.AddParts` | 工程化实践/pdx-chain-so/pkg/pdx-chain/crypto/bn256/cloudflare/gfp_generic.go:76-90 | the six partial sums of a word product go to six cells, none of which overflows |
| `Gfp.Accumulate` | 工程化实践/pdx-chain-so/pkg/pdx-chain/crypto/bn256/cloudflare/gfp_generic.go:75-90 | all cells together weigh the product of both numbers, modulo the words kept, and none passes 2^53 |
| `Gfp.FoldColumn` | 工程化实践/pdx-chain-so/pkg/pdx-chain/crypto/bn256/cloudflare/gfp_generic.go:92-107 | a column of cells is shifted into the words with both kinds of carries, nothing lost below the top |
| `Gfp.MulWords` | 工程化实践/pdx-chain-so/pkg/pdx-chain/crypto/bn256/cloudflare/gfp_generic.go:69-156 | mul is the full product and halfMul the product modulo 2^256 |
| `Gfp.LowClears` | 工程化实践/pdx-chain-so/pkg/pdx-chain/crypto/bn256/cloudflare/gfp_generic.go:158-161 | the multiple of p that is added makes the lower half vanish |
| `Gfp.HighPart` | 工程化实践/pdx-chain-so/pkg/pdx-chain/crypto/bn256/cloudflare/gfp_generic.go:163-172 | what is left above it, carry included, is below 2p |
| `Gfp.Mul` | 工程化实践/pdx-chain-so/pkg/pdx-chain/crypto/bn256/cloudflare/gfp_generic.go:158-173 | for reduced inputs the reduced number whose product with 2^256 is congruent to the product, whatever is aliased |
| `Keccak.OffsetsFollowWalk` | 工程化实践/pdx-chain-so/pkg/pdx-chain/crypto/sha3/keccakf.go:57-151 | the rotations are those that the walk over the lanes in section 3.2.2 of FIPS 202 defines |
| `Keccak.ConstantsFollowRegister` | 工程化实践/pdx-chain-so/pkg/pdx-chain/crypto/sha3/keccakf.go:11-36 | the round constants are the bits of the shift register in section 3.2.5 of FIPS 202 |
| `Keccak.CellIsPlace` | 工程化实践/pdx-chain-so/pkg/pdx-chain/crypto/sha3/keccakf.go:62-413 | the cells that each unrolled round reads and writes are where the placement keeps its lanes |
| `Keccak.CellsDistinct` | 工程化实践/pdx-chain-so/pkg/pdx-chain/crypto/sha3/keccakf.go:62-413 | within a round no cell is used twice |
| `Keccak.EffectInPlace` | 工程化实践/pdx-chain-so/pkg/pdx-chain/crypto/sha3/keccakf.go:50-60 | the theta effects computed on the cells are those of the state as it stands |
| `Keccak.RoundIs` | 工程化实践/pdx-chain-so/pkg/pdx-chain/crypto/sha3/keccakf.go:61-74 | one lane of a textbook round, from the turned lanes of its row |
| `Keccak.RowsDone` | 工程化实践/pdx-chain-so/pkg/pdx-chain/crypto/sha3/keccakf.go:62-151 | after some rows their cells hold the lanes of the next state and the others are untouched |
| `Keccak.RowIs` | 工程化实践/pdx-chain-so/pkg/pdx-chain/crypto/sha3/keccakf.go:62-151 | a row written in place is the turned lanes, mixed and stored in its cells |
| `Keccak.ThetaEffects` | 工程化实践/pdx-chain-so/pkg/pdx-chain/crypto/sha3/keccakf.go:50-60 | the assignments to bc0 to bc4 and d0 to d4 make the theta effects of the cells as they stand |
| `Keccak.FirstRow` | 工程化实践/pdx-chain-so/pkg/pdx-chain/crypto/sha3/keccakf.go:61-74 | the assignments to t, bc0 to bc4 and the cells put the first row there, round constant included |
| `Keccak.SecondRow` | 工程化实践/pdx-chain-so/pkg/pdx-chain/crypto/sha3/keccakf.go:76-90 | so for the second row, whose bc start in another column |
| `Keccak.ThirdRow` | 工程化实践/pdx-chain-so/pkg/pdx-chain/crypto/sha3/keccakf.go:92-106 | the third row |
| `Keccak.FourthRow` | 工程化实践/pdx-chain-so/pkg/pdx-chain/crypto/sha3/keccakf.go:108-122 | the fourth row |
| `Keccak.FifthRow` | 工程化实践/pdx-chain-so/pkg/pdx-chain/crypto/sha3/keccakf.go:124-138 | the fifth row |
| `Keccak.ViewAtStart` | 工程化实践/pdx-chain-so/pkg/pdx-chain/crypto/sha3/keccakf.go:45-413 | after four rounds every lane is back in its place |
| `Keccak.RoundAt` | 工程化实践/pdx-chain-so/pkg/pdx-chain/crypto/sha3/keccakf.go:45-413 | an in-place round, seen through the placement, is theta, rho, pi, chi and iota |
| `Keccak.FourInPlace` | 工程化实践/pdx-chain-so/pkg/pdx-chain/crypto/sha3/keccakf.go:45-413 | one pass of the loop is four textbook rounds |
| `Keccak.KeccakF1600` | 工程化实践/pdx-chain-so/pkg/pdx-chain/crypto/sha3/keccakf.go:40-413 | the in-place permutation is the 24 textbook rounds, for every state |
| `KeccakBits.ThetaOnBits` | 工程化实践/pdx-chain-so/pkg/pdx-chain/crypto/sha3/keccakf.go:50-60 | section 3.2.1 of FIPS 202 on single bits: each is added to the parities of two columns |
| `KeccakBits.RhoOnBits` | 工程化实践/pdx-chain-so/pkg/pdx-chain/crypto/sha3/keccakf.go:61-151 | section 3.2.2: bit z of a lane comes from z less the offset modulo 64 |
| `KeccakBits.RhoFollowsWalk` | 工程化实践/pdx-chain-so/pkg/pdx-chain/crypto/sha3/keccakf.go:61-151 | and the offset of the lane that the walk meets after t steps is (t + 1)(t + 2) / 2 |
| `KeccakBits.PiOnBits` | 工程化实践/pdx-chain-so/pkg/pdx-chain/crypto/sha3/keccakf.go:61-151 | section 3.2.3: the lanes change places |
| `KeccakBits.ChiOnBits` | 工程化实践/pdx-chain-so/pkg/pdx-chain/crypto/sha3/keccakf.go:70-74 | section 3.2.4: bit (x, y, z) is A[x, y, z] xor (not A[x + 1, y, z] and A[x + 2, y, z]) |
| `KeccakBits.ConstantOnBits` | 工程化实践/pdx-chain-so/pkg/pdx-chain/crypto/sha3/keccakf.go:11-36 | section 3.2.5: bit 2^j - 1 of a constant is a bit of the shift register, given as eight booleans, all others are zero |
| `KeccakBits.IotaOnBits` | 工程化实践/pdx-chain-so/pkg/pdx-chain/crypto/sha3/keccakf.go:70 | they are added to lane (0, 0) |
| `KeccakBits.RoundsOnBits` | 工程化实践/pdx-chain-so/pkg/pdx-chain/crypto/sha3/keccakf.go:40-413 | any number of rounds on lanes is that number of rounds on the bits |
| `Sha3.BytesOfLanes` | 工程化实践/pdx-chain-so/pkg/pdx-chain/crypto/sha3/xor_generic.go:12-28 | lanes and their little-endian bytes are one to one |
| `Sha3.XorIn` | 工程化实践/pdx-chain-so/pkg/pdx-chain/crypto/sha3/xor_generic.go:12-20 | xoring lanes xors their bytes into the state |
| `Sha3.CopyOut` | 工程化实践/pdx-chain-so/pkg/pdx-chain/crypto/sha3/xor_generic.go:23-28 | whole words of the buffer get the first bytes of the state, from which the lanes read back, and the rest of it stays |
| `Sha3.Permute` | 工程化实践/pdx-chain-so/pkg/pdx-chain/crypto/sha3/sha3.go:80-95 | the in-place permutation is Keccak-f on the bytes |
| `Sha3.Sha3Parameters` | 工程化实践/pdx-chain-so/pkg/pdx-chain/crypto/sha3/hashes.go:18-53 | the rate leaves a capacity of twice the digest, and the separator is the suffix 01 and a one |
| `Sha3.Sum` | 工程化实践/pdx-chain-so/pkg/pdx-chain/crypto/sha3/hashes.go:18-97 | for all four sizes, the digest of a message cut into any pieces is the sponge over Keccak-f of the whole |
| `Sha3.SumPanics` | 工程化实践/pdx-chain-so/pkg/pdx-chain/crypto/sha3/sha3.go:67-76 | for all four sizes, a sum after a read panics while the position in the block is below twice the digest less 32, whatever was hashed |
| `Sha3Bits.ZeroOnBits` | 工程化实践/pdx-chain-so/pkg/pdx-chain/crypto/sha3/sha3.go:58-65 | all 1600 bits of the initial state are zero |
| `Sha3Bits.FirstBlock` | 工程化实践/pdx-chain-so/pkg/pdx-chain/crypto/sha3/xor_generic.go:12-20 | so the first block is absorbed as itself, with zeros behind it |
| `Sha3Bits.KeccakOnBits` | 工程化实践/pdx-chain-so/pkg/pdx-chain/crypto/sha3/sha3.go:80-95 | the permutation on bytes is Keccak-p[1600, 24] on the bits, numbered as in section 3.1 of FIPS 202 |
| `Sha3Bits.PadOnBits` | 工程化实践/pdx-chain-so/pkg/pdx-chain/crypto/sha3/sha3.go:97-122 | the padding is the suffix and pad10*1 on the bits |
| `Sha3Bits.AbsorbOnBits` | 工程化实践/pdx-chain-so/pkg/pdx-chain/crypto/sha3/sha3.go:126-158 | absorbing bytes is the loop of algorithm 8 on the bits |
| `Sha3Bits.SqueezeOnBits` | 工程化实践/pdx-chain-so/pkg/pdx-chain/crypto/sha3/sha3.go:161-182 | and so is squeezing |
| `Sha3Bits.HashOnBits` | 工程化实践/pdx-chain-so/pkg/pdx-chain/crypto/sha3/sha3.go:97-182 | for every rate, suffix, message and length of output: the sponge on bytes is SPONGE[Keccak-p[1600, 24], pad10*1] on the bits |
| `Sha3Bits.Digest` | 工程化实践/pdx-chain-so/pkg/pdx-chain/crypto/sha3/hashes.go:18-97 | a digest of a message in any pieces is SHA3-224, 256, 384 or 512 of section 6.1 of FIPS 202, bit by bit |
| `Sha3Bits.Shake` | 工程化实践/pdx-chain-so/pkg/pdx-chain/crypto/sha3/shake.go:113-173 | what is read of SHAKE128 and SHAKE256, in any pieces, is the output of section 6.2, bit by bit |
| `Sha3Bits.LegacyKeccak` | 工程化实践/pdx-chain-so/pkg/pdx-chain/crypto/sha3/hashes.go:55-65 | Keccak-256 and Keccak-512 put no suffix between the message and its padding |
| `Bits.RotBit` | 工程化实践/pdx-chain-so/pkg/pdx-chain/crypto/sha3/keccakf.go:64-69 | a rotation moves bit z to z plus the distance modulo 64 |

## Left out

- Inverse.Invert: stated for elements coprime to q; that q is prime, so that every non-zero element is, is not proved.
- Montgomery.Mul: the unrolled rounds of the source are six calls of one round; `square` of arithmetic_fallback.go is not modelled, because its helpers drop a carry for some inputs.
- CurvePoint.Mul: points are elements of an abstract group; the Jacobian formulas behind Add and Double and the value of the endomorphism constant are not modelled.
- MultiExp.MultiExp: the window width is a parameter from 1 to 63; the logarithm in floating point that chooses it is not modelled, nor are negative exponents.
- Lattice.Multi: needs positive parts, which hold for both lattices; bits of negative numbers are not modelled.
- RlpDecoder.Stream.DecodeInterface: the reader is a byte slice and the input limit is its length; unlimited readers and values past 2^64 bytes are not modelled.
- RlpEncoder.EncBuf.Write: writes the generic items; reflection, struct tags, integers, custom encoders and `toWriter` are not modelled.
- StateJournal.RevertRestores: runs contain no Finalise, IntermediateRoot, Copy, Setjournal or SetDirties, and logs are not modelled; `MStateDB` keeps a second cache of objects that a revert does not touch, so the theorem is for `StateDB` only.
- StateDb.StateDB.Revert: an entry leaves the journal as it is reverted, where the source cuts the journal once at the end; nothing reads the journal in between. `stateObjectsDirty` and callbacks are not modelled.
- StateDb.StateDB.SetCode: the hash function of the code is part of the database, and any function.
- StateDb.StateDB.GetStateObject: tries are maps whose lookups do not fail, and account records decode.
- AccountLocks.RunKeepsInv: transaction hashes are not zero, a transaction runs on one goroutine and makes no request after UnLockAccounts.
- The state of the sponge is its bytes, as `Sha3` relates them to lanes; cSHAKE is not part of this model.
- The binary marshalling of BLAKE2b digests and Clone of a BLAKE2X output are not part of this model.
- Prque.Queue.Push: the contents at any one time lie within a spread of 2^63, as the package demands; Reset makes a new queue. The sifting loops are those of Go's container/heap.
- Gfp.Accumulate: mul and halfMul share one loop with the number of words as a parameter; shifts and masks of the parts of words are written as divisions and remainders.
- Keccak.RoundAt: the four unrolled rounds of the source are one, over the table of the cells that each reads and writes.
- The assembly and unaligned variants of all these are not part of this model.
- fp6 and fp12 towers, pairings, hashing to curves and the byte codecs of field elements are not part of this model.
- The TLS, JWT, ECIES, VRF, logging, HTTP and configuration code is not part of this model.
