# Filum: a verified model

Filum is a federated-learning stack for LoRa radios, written in C99. Shards train a local
model, send a compressed update in fragments, and the Herald reassembles the fragments,
aggregates the updates of a round and sends the aggregated delta back. This project models the
integer arithmetic, the protocol and the combinatorial algorithms of that stack in Dafny and
proves what they compute and what they keep.

The modules follow the C files.

- **Field and MAC arithmetic** (`fl_crypto.c`): `Field25519`, `FieldBytes`, `FieldElements`,
  `FieldInverse` and `X25519` for GF(2^255-19) in five 51-bit limbs; `Poly1305Limbs`,
  `Poly1305State`, `Poly1305Finish` and `Poly1305` for the MAC; `ChaCha20`; `Sealing` for
  encrypt and decrypt. `MachineWords` ties the integer operations to 32-bit words;
  `MacVectors` and `CipherVectors` prove the examples of RFC 7539. `Words`, `Bits`,
  `LittleEndian`, `Modular` and `Counters` are the arithmetic they share.
- **Transport**: `Crc`, `CyclicCode`, `CrcVectors`, `Frame`, `Sparse` and `Transmission` for what
  goes over the air; `FragmentPool`, `Completion`, `Reassembly`, `Timely` and `Mixing` for the
  Herald's pool.
- **Compression and aggregation**: `Quant`, `TopK`, `TopKLaws`, `ErrorFeedback`,
  `Aggregation`, `Aggregator`, `RealSums`.
- **The two state machines**: `Round`, `HeraldSteps`, `HeraldRuns`, `Capacity`, `Herald`;
  `ShardSteps`, `ShardRuns`, `Shard`; `Broadcasts`, `Answers` and `Agreement` for the two together.

Where the C code updates things in place, so does the model: limb arrays, MAC state, buffers,
pool slots, aggregator, model parameters and the two state machines are arrays and classes,
and every method is proved equal to a specification function or relation of the old state.
`HeraldSteps` and `ShardSteps` hold the specification of one iteration and one tick;
`HeraldRuns` and `ShardRuns` prove what holds over every run of them, and class `Herald` and
class `Shard` are proved to perform exactly those steps.

How the C code is represented:

- A machine word is an integer with a range (`u8` to `u128`). An expression written without a
  remainder is thereby proved not to wrap; where the C code relies on wrap-around or on a
  truncating cast, the remainder is written out. Shifts and low masks are division,
  multiplication and remainder by powers of two; the other bit operations are the functions of
  `Bits`.
- `float` is `real`; rounding is not modelled. The learning rate, which is only carried, is
  four bytes.
- Bitmaps (`selected`, `frag_bitmap`) are listed bit by bit.
- `time(NULL)`, received packets, the success of a send, the result of local training and the
  privacy noise are inputs. One receive call yields one whole packet or nothing.
- A null pointer that the C code tests to choose a behaviour (`residual`, `scale_out`) is a null
  reference or a flag; checks of pointers that no caller passes as null are omitted.
- The store to `h[0]` and the two stores to `h[1]` at the start of `fe51_load`, which later
  lines overwrite, are left out, and short loops over four or five limbs are unrolled where the
  carries differ.
- A beacon with an empty payload leaves the shard's round number to whatever its receive frame
  held; that byte is an input too.

Where the code departs from a standard or from its own documentation, the model follows the
code, and the exact condition under which they agree is proved:

- The ladder multiplies by 121666 where section 5 of RFC 7748 has 121665, so it computes on the
  curve with coefficient 486666 instead of 486662 (`StepMeaning`, `RfcStepMeaning`,
  `StepMatchesRfc7748`, `FirstStepDeparts`, `BasePointDeparts`).
- `fe51_store` does not reduce below 2^255-19, so the output of X25519 may be the element plus
  p when the element is below 19, unlike section 5 of RFC 7748 (`Store`, `CanonicalExactly`,
  `ModulusTimesOne`).
- The Poly1305 pad is added word by word without carry, unlike section 2.5 of RFC 7539
  (`MacMatchesRfc7539` for every key and message, `MacDeparts` for a key and message that differ).
- `poly1305_finish` has no room for the padding byte when a full block is held back, which
  happens exactly for non-empty multiples of 16 bytes (`HeldBlock`); the claims about tags,
  encryption and decryption are for all other lengths.
- `fl_quant.h` says codes are rounded; the code truncates toward zero (`RoundedExactly`,
  `RoundingDeparts`).
- `fl_fragment_pool.h` says a duplicate fragment is answered with -1; the code answers 0
  (`DuplicateAnswer`, `DuplicateDeparts`).
- `fl_round.h` says, in two ways, that `min_shards` takes part in closing a round; the code
  never reads it (`MinShardsIgnored`, `MinShardsDeparts`).
- The pool forgets an update once it is complete: if its fragments arrive all over again, it is
  acknowledged and finished again (`UpdateOnce` says exactly when an update is finished once,
  `DuplicateWitness` gives a frame that is finished twice). What is finished is aggregated, as
  far as there is room.
- The pool does not check to which update a fragment belongs: a shard's next update is kept
  apart from the last one when the fragments of the last one are all accounted for
  (`Consecutive`), and otherwise they can be mixed (`UpdatesMix`; `KeptApartExactly` gives the
  condition).
- The aggregator has room for 64 updates a round while `max_shards` may be larger: every
  finished update of every run is aggregated if and only if `max_shards <= 64`
  (`EachUpdateExactly`, with a run of 65 updates in `OneTooMany`), or, on a clock that is never
  set back, if `max_shards <= 64` or the window is 0 (`EachUpdateInTime`).
- The shard counts delta fragments whatever their index: `DeltaArrives` says what it applies
  for every order and repetition, `WholeExactly` when that is the delta, and `PartApplied` a
  delta of which a part is applied.
- A shard whose effective gradients are all negligible, and no other, sends nothing and waits
  for an answer (`SilentExactly`). An ACK names no shard, so the one that is meant for another
  shard completes its round (`SilentRun`, `AnswerForAnother`). Completed rounds can exceed the
  updates finished for the shard exactly when the Herald finishes an update of another one
  (`CompletedAgainstFinished`).
- The delta is sent without a residual, so the models of Herald and shards drift apart
  (`ModelsDiffer` says by how much, `KeepsDistance` when not, `NeverSent` where for good;
  `ModelsPart` is a run).
- With a noise deviation of zero `fl_dp_apply` adds nothing and counts nothing
  (`PrivacyExactly`; `UnpaidRun` is a run that breaks the bound without noise).

## Model

| member | source | states |
|---|---|---|
| LittleEndian.Load32 | common/src/fl_crypto.c:28-31 | the OR of four shifted bytes is the little-endian integer of the four bytes |
| LittleEndian.Store32 | common/src/fl_crypto.c:33-36 | the four bytes stand, little-endian, for the word |
| Field25519.FoldedProduct | common/src/fl_crypto.c:264-269 | the five columns with the 19-fold wrap represent the product of the two elements modulo 2^255-19 |
| Field25519.Reduce | common/src/fl_crypto.c:270-276 | the carry chain of fe51_mul fits its words, leaves tight limbs (below 2^51, limb 1 below 2^51 + 2^13) and keeps the value modulo 2^255-19 |
| Field25519.CarryResult | common/src/fl_crypto.c:270-276 | the limbs the carry chain leaves are tight and congruent to the five columns |
| Field25519.Mul | common/src/fl_crypto.c:260-277 | for limbs below 2^54 no 64- or 128-bit word wraps; the result is tight and is the product modulo 2^255-19, also when output and inputs alias; times 1, limbs below 2^51 come out as they are |
| Field25519.Square | common/src/fl_crypto.c:279 | the same for the square |
| Field25519.Mul121666 | common/src/fl_crypto.c:281-288 | no word wraps; the result is tight and is 121666 times the element |
| Field25519.Add | common/src/fl_crypto.c:249-251 | limb sums without wrap; the value is the sum |
| Field25519.Sub | common/src/fl_crypto.c:253-258 | no limb underflows or wraps under the 2p offset; the value is a + 2p - b |
| Field25519.CondSwap | common/src/fl_crypto.c:314-317 | the masked exclusive-or swaps the two elements exactly when the low bit of the flag is set |
| FieldBytes.Load | common/src/fl_crypto.c:212-230 | the limbs are below 2^51 and stand for the 255 low bits of the little-endian input |
| FieldBytes.Settle | common/src/fl_crypto.c:235-237 | on any tight element the one carry pass brings every limb below 2^51 and keeps the element |
| FieldBytes.SettledBounds | common/src/fl_crypto.c:235-237 | why no carry is lost after the last step: limb 1 stays below 2^51 |
| FieldBytes.PackValue | common/src/fl_crypto.c:239-242 | the four packed words hold the value of the five limbs, below 2^255 |
| FieldBytes.Store | common/src/fl_crypto.c:232-247 | the 32 bytes hold the stored element, or, only when it is below 19, the element plus p; they hold the element itself exactly when the settled limbs stand for less than p |
| FieldBytes.RepresentsExactly | common/src/fl_crypto.c:232-247 | these two are the only integers below 2^255 that are congruent to the element |
| FieldBytes.CanonicalExactly | common/src/fl_crypto.c:235-246 | settled limbs are packed to the element itself if and only if not (limb 0 is at least 2^51-19 and the others are 2^51-1) |
| FieldBytes.ModulusStored | common/src/fl_crypto.c:232-247 | concrete input: the limbs of p, which stand for zero, are stored as p and not as zero |
| FieldBytes.ModulusTimesOne | common/src/fl_crypto.c:232-277 | such limbs are a product: p times 1, stored, is p |
| FieldElements.MulElem | common/src/fl_crypto.c:260-277 | product of residues: fe51_mul on loose inputs (limbs below 2^54) computes multiplication in the field |
| FieldElements.Mul121666Elem | common/src/fl_crypto.c:281-288 | fe51_mul_121666 computes 121666 times the residue |
| FieldElements.AddElem | common/src/fl_crypto.c:249-251 | fe51_add of two tight elements is loose and computes addition in the field |
| FieldElements.SubElem | common/src/fl_crypto.c:253-258 | fe51_sub of two tight elements is loose and computes subtraction in the field |
| FieldInverse.SquareTimes | common/src/fl_crypto.c:296-296 | n squarings raise x^e to x^(e 2^n) |
| FieldInverse.GrowTo50 | common/src/fl_crypto.c:296-303 | the chain reaches x^(2^50-1) |
| FieldInverse.GrowTo250 | common/src/fl_crypto.c:304-309 | the chain reaches x^(2^250-1) |
| FieldInverse.InverseExponent | common/src/fl_crypto.c:310-311 | (2^250-1) 2^5 + 11 is p - 2 |
| FieldInverse.Invert | common/src/fl_crypto.c:290-312 | fe51_invert returns z^(2^255-21), tight, for every bounded z |
| X25519.ClampedRange | common/src/fl_crypto.c:322-323 | a clamped scalar is a multiple of 8 with 2^254 <= k < 2^255 |
| X25519.ClampMeaning | common/src/fl_crypto.c:322-323 | the clamped bytes stand for the scalar with all bits but 3 to 254 cleared and bit 254 set, as And and Or of the integer |
| X25519.BitOfInteger | common/src/fl_crypto.c:335 | the bit the loop reads is bit t of the scalar as an integer |
| X25519.SwapTwice | common/src/fl_crypto.c:336 | one deferred exchange undoes the last swap and does the next |
| X25519.LadderStep | common/src/fl_crypto.c:337-348 | the in-place step keeps all four elements tight (so no subtraction underflows and no product overflows) and computes the step on residues of which StepMeaning says what it is |
| X25519.StepMeaning | common/src/fl_crypto.c:337-348 | the step is, modulo 2^255-19, on the integers and for every state: x2' = (x2^2 - z2^2)^2, z2' = 4 x2 z2 (x2^2 + 486666 x2 z2 + z2^2), x3' = 4 (x2 x3 - z2 z3)^2, z3' = 4 x1 (x2 z3 - z2 x3)^2 |
| X25519.RfcStepMeaning | common/src/fl_crypto.c:347-348 | the step of section 5 of RFC 7748, written out on the integers, is the same with 486662 |
| X25519.SwapPairs | common/src/fl_crypto.c:336 | the two conditional swaps exchange the two points or leave them |
| X25519.LadderBit | common/src/fl_crypto.c:335-348 | one iteration with the deferred swap simulates one bit of the plain ladder that swaps before and after each step |
| X25519.RunLadder | common/src/fl_crypto.c:333-350 | all 255 iterations refine, modulo 2^255-19, the ladder over the bits of the scalar, and every intermediate element stays tight |
| X25519.LadderMeaning | common/src/fl_crypto.c:325-350 | after n bits the two points are the multiples m and m + 1 of the base point, for the number m that those bits stand for, each gained by doubling and by differential addition on the curve with coefficient 486666 |
| X25519.Quotient | common/src/fl_crypto.c:351-352 | the output is x2 times z2^(p-2), or, only when that is below 19, that plus p |
| X25519.SharedSecret | common/src/fl_crypto.c:320-354 | for every scalar and point the bytes returned by x25519 hold x over z for the multiple, by the clamped scalar, of the point on the curve with coefficient 486666, or, only when that is below 19, the quotient plus p |
| X25519.SharedMeaning | common/src/fl_crypto.c:320-354 | the ladder over the clamped bytes ends at the multiple by the scalar with bits 3 to 253 kept and bit 254 set |
| X25519.StepMatchesRfc7748 | common/src/fl_crypto.c:347-348 | the step as coded (121666) equals the step of section 5 of RFC 7748 (121665), which is written without it, if and only if the square of x2 z2 is 0 modulo 2^255-19 |
| X25519.CurvesAgree | common/src/fl_crypto.c:347-348 | the two curves double a point to the same one if and only if that square is 0 |
| X25519.FirstStepDeparts | common/src/fl_crypto.c:347-348 | for every scalar, the first step agrees with RFC 7748 if and only if the square of the u-coordinate is 0 modulo 2^255-19 |
| X25519.BasePointDeparts | common/src/fl_crypto.c:347-357 | concrete input: with the base point 9 the first step differs |
| Poly1305Limbs.BlockWords | common/src/fl_crypto.c:130-134 | the five masked and shifted words are the 26-bit digits of the block with the high bit above it |
| Poly1305Limbs.ColumnBounds | common/src/fl_crypto.c:136-140 | the five 64-bit columns never wrap for bounded h and r |
| Poly1305Limbs.BlockProduct | common/src/fl_crypto.c:136-140 | the five columns represent h times r up to a multiple of 2^130-5, which is given |
| Poly1305Limbs.Reduce | common/src/fl_crypto.c:142-150 | the carry chain, including its casts to 32 bits, loses nothing, restores the accumulator bounds and keeps the value modulo 2^130-5 |
| Poly1305Limbs.BlockMeaning | common/src/fl_crypto.c:126-151 | one block takes h to (h + block) r modulo 2^130-5 |
| Poly1305State.FeedPieces | common/src/fl_crypto.c:153-162 | feeding a then b is feeding a + b |
| Poly1305State.AnyChunking | common/src/fl_crypto.c:153-162 | any chunking of a message gives the same state |
| Poly1305State.FeedHolds | common/src/fl_crypto.c:153-162 | each byte keeps the relation between the state and the polynomial of the bytes so far |
| Poly1305State.FeedMeaning | common/src/fl_crypto.c:153-162 | from a fresh state, after any message, h is the polynomial of the flushed blocks and the buffer holds the rest |
| Poly1305State.HeldBlock | common/src/fl_crypto.c:155-170 | a full block is held back, where finish would write past its buffer, if and only if the message is a non-empty multiple of 16 bytes |
| Poly1305Finish.KeyMeaning | common/src/fl_crypto.c:111-124 | the limbs of r stand for the masked bytes and satisfy the bounds of the block function |
| Poly1305Finish.ClampMeaning | common/src/fl_crypto.c:115-117 | the masked bytes stand for the first half of the key And 0x0ffffffc0ffffffc0ffffffc0fffffff |
| Poly1305Finish.PaddedValue | common/src/fl_crypto.c:165-169 | the padded last block stands for the remaining bytes with a one above them |
| Poly1305Finish.LastBlockMeaning | common/src/fl_crypto.c:165-170 | after the last block h is the polynomial of the whole message |
| Poly1305Finish.Settled | common/src/fl_crypto.c:171-176 | the carry pass of finish brings every limb below 2^26 and keeps the value modulo 2^130-5 |
| Poly1305Finish.Subtracted | common/src/fl_crypto.c:178-188 | the masked conditional subtraction gives the fully reduced value |
| Poly1305Finish.FinalLimbs | common/src/fl_crypto.c:171-188 | from any accumulator, the limbs before the tag are exactly the value modulo 2^130-5 |
| Poly1305Finish.AccumulatorMeaning | common/src/fl_crypto.c:111-188 | for every key and every message of length 0 or not a multiple of 16 the final limbs are the fully reduced polynomial of the padded blocks at r = the first half of the key And 0x0ffffffc0ffffffc0ffffffc0fffffff |
| Poly1305Finish.TagWordsValue | common/src/fl_crypto.c:190-193 | the four words are the reduced value modulo 2^128 |
| Poly1305Finish.TagMatchesRfc7539 | common/src/fl_crypto.c:190-197 | the tag with its word-wise pad equals the 128-bit sum of section 2.5.1 of RFC 7539 if and only if none of the three lower words carries |
| Poly1305Finish.MacMatchesRfc7539 | common/src/fl_crypto.c:111-198 | for every key and every message of length 0 or not a multiple of 16, the tag is that of section 2.5 of RFC 7539, with r taken from the integer of the key, if and only if no word but the last carries when the second half of the key is added to the polynomial |
| MacVectors.PolyVector | common/src/fl_crypto.c:111-198 | the reference tag of that comparison gives the tag of section 2.5.2 of RFC 7539 for its key and message |
| Poly1305Finish.MacDeparts | common/src/fl_crypto.c:190-197 | a key and a one-byte message whose tag is not that of the standard |
| Poly1305.Mac.constructor | common/src/fl_crypto.c:111-124 | poly1305_init establishes the state of the key |
| Poly1305.Mac.Block | common/src/fl_crypto.c:126-151 | the in-place block function computes the block limbs with no 32- or 64-bit wrap, the 32-bit products r * 5 included |
| Poly1305.Mac.Update | common/src/fl_crypto.c:153-162 | the in-place byte loop takes the state to the state fed with the message |
| Poly1305.Mac.Finish | common/src/fl_crypto.c:164-198 | the tag of the fully reduced accumulator; requires that no full block is held back |
| Poly1305.Authenticate | common/src/fl_crypto.c:437-441 | init, update and finish give the tag of the key and message |
| ChaCha20.QuarterRoundInPlace | common/src/fl_crypto.c:46-50 | the macro on four words of the array is the quarter round with 32-bit wrap and rotations |
| ChaCha20.QuarterUndone | common/src/fl_crypto.c:46-50 | right rotations by 7, 8, 12 and 16 and subtractions undo the quarter round for every four words |
| ChaCha20.RotlBit | common/src/fl_crypto.c:38-40 | a rotation by k moves bit j to position (j + k) mod 32 |
| MachineWords.XorWord | common/src/fl_crypto.c:46-50 | exclusive-or as modelled is that of 32-bit machine words |
| MachineWords.AddWord | common/src/fl_crypto.c:46-50 | addition as modelled is that of 32-bit machine words |
| MachineWords.QuarterMeaning | common/src/fl_crypto.c:46-50 | the quarter round is that of section 2.1 of RFC 7539 on machine words, for every four words |
| CipherVectors.QuarterVector | common/src/fl_crypto.c:46-50 | the quarter round of section 2.1.1 of RFC 7539 |
| ChaCha20.MakeBlock | common/src/fl_crypto.c:52-66 | ten double rounds on a copy, then the words of the input added |
| ChaCha20.DoubleRoundOf | common/src/fl_crypto.c:55-64 | a double round is the quarter round of every column and then of every diagonal |
| ChaCha20.DoubleRoundTurns | common/src/fl_crypto.c:55-64 | a double round commutes with rotating the four columns |
| CipherVectors.BlockVector | common/src/fl_crypto.c:52-82 | the block of section 2.3.2 of RFC 7539: the constants, the order of key, counter and nonce, ten double rounds and the final addition |
| ChaCha20.XorStream | common/src/fl_crypto.c:68-96 | byte i of the buffer is xored with byte i mod 64 of the block with counter + i / 64, for every length, in place |
| ChaCha20.StreamAt | common/src/fl_crypto.c:84-95 | which block and byte the stream takes at each position, with the counter wrapping at 2^32 |
| ChaCha20.CipherTwice | common/src/fl_crypto.c:68-96 | applying the stream twice gives the message back |
| Sealing.Session.Encrypt | common/src/fl_crypto.c:424-442 | an inactive session leaves the buffer and a zero tag; an active one leaves the sealed bytes and their tag |
| Sealing.OneStream | common/src/fl_crypto.c:430-441 | one key stream for both: the tag is taken with its first 32 bytes as key, and the message is under its bytes from 64 on |
| Sealing.Session.Decrypt | common/src/fl_crypto.c:444-466 | accepted if and only if the tag is the tag of the received bytes; refused input leaves the buffer unchanged |
| Sealing.ConstantTimeEqual | common/src/fl_crypto.c:459-462 | the accumulated difference is zero if and only if the tags are equal |
| Sealing.RoundTrip | common/src/fl_crypto.c:424-466 | with equal keys decrypt after encrypt restores the bytes exactly when the tag arrives intact, and otherwise leaves the ciphertext |
| Crc.Crc16 | common/src/fl_crc.c:9-22 | the register loop computes the checksum |
| Crc.FrameCrc | common/src/fl_frame.c:11-30 | frame_crc is the checksum of header[0..8] followed by the payload |
| CyclicCode.MultipleExactly | common/src/fl_crc.c:9-22 | from zero, a stream of any length leaves a zero register if and only if it is a carry-less multiple of 1 0001 0000 0010 0001, the seventeen bits written out |
| CrcVectors.CheckValue | common/src/fl_crc.c:9-22 | the checksum of nothing is 0xFFFF and that of the digits 1 to 9 is 0x29B1 |
| CrcVectors.ShiftMeaning | common/src/fl_crc.c:15-19 | one shift of the register as modelled is the shift on machine words |
| Crc.FeedStream | common/src/fl_crc.c:12-20 | the byte-wise register equals the bit-serial one on the bit stream |
| Crc.FeedLinear | common/src/fl_crc.c:12-20 | the register is linear over exclusive-or |
| Crc.Syndrome | common/src/fl_crc.c:9-22 | the difference of two checksums is the checksum from zero of the difference of the streams |
| Crc.ShiftsNonZero | common/src/fl_crc.c:14-19 | shifting never loses a non-zero register |
| Crc.BurstShows | common/src/fl_crc.c:9-22 | a non-zero error within 16 consecutive bits never leaves a zero register, for any stream length |
| Crc.OddFeed | common/src/fl_crc.c:9-22 | the parity of the register follows the parity of the bits fed |
| Frame.Encode | common/src/fl_frame.c:32-57 | the frame with its checksum, or an error when the payload is too long |
| Frame.Decode | common/src/fl_frame.c:59-74 | the three errors and the decoded fields |
| Frame.DecodeWire | common/src/fl_frame.c:32-74 | decoding the bytes of an encoded frame gives the frame back |
| Frame.FitsExactly | common/src/fl_frame.c:32-57 | a payload is refused if and only if header and payload exceed the 224 bytes of a frame |
| Frame.WireLayout | common/src/fl_frame.c:32-57 | where every field of a frame is on the wire, numbers with the low byte first |
| CrcVectors.AckVector | herald/src/fl_herald.c:205-211 | the ten bytes of the acknowledgement in round 0 |
| Frame.AcceptedExactly | common/src/fl_frame.c:59-74 | after any error of equal length the bytes are accepted if and only if the magic is intact and the error in the CRC field equals the checksum of the error in the covered bits |
| Frame.UndetectedExactly | common/src/fl_frame.c:59-74 | after any error of equal length the bytes are accepted if and only if the magic is intact and the error in the covered bits, followed by that in the CRC field, is a multiple of x^16 + x^12 + x^5 + 1 |
| Frame.BurstDetected | common/src/fl_frame.c:59-74 | any non-zero error confined to 16 consecutive covered bits is answered with BAD_MAGIC or CRC |
| Frame.AcceptedIsEven | common/src/fl_frame.c:59-74 | every accepted byte string has an even number of one bits |
| Frame.OddErrorDetected | common/src/fl_frame.c:59-74 | any odd number of flipped bits anywhere in a frame of any length is answered with BAD_MAGIC or CRC |
| Quant.CarriedShrinks | common/include/fl_quant.h:26-37 | the decoded value keeps the sign and never exceeds the magnitude of what was encoded |
| Quant.CarriedError | common/include/fl_quant.h:26-37 | the error is below 1/128 if and only if -129/128 < x < 1 |
| Quant.RoundedExactly | common/include/fl_quant.h:26-32 | the code equals the documented clamp(round(128 x)) if and only if the value is clamped or less than half a step is dropped |
| Quant.RoundingDeparts | common/include/fl_quant.h:26-32 | at x = 0.75/128 the code is 0 and the documented one 1 |
| Quant.CodeRoundTrip | common/include/fl_quant.h:26-37 | encoding a decoded code gives the code back |
| Quant.QuantMonotone | common/include/fl_quant.h:26-32 | quantisation is monotone, clamps included |
| Quant.GradLinf | common/src/fl_quant.c:9-17 | the result is the largest magnitude, attained unless it is zero |
| Quant.QuantVec | common/src/fl_quant.c:35-48 | the scale is the largest magnitude, or 1 when that is negligible, and every code is that of the scaled value |
| Quant.DequantVec | common/src/fl_quant.c:50-56 | every code times its factor; scale 0 means 1/128 |
| Quant.VectorError | common/src/fl_quant.c:35-56 | a normalised vector comes back within scale/128 in every coordinate and never grows in magnitude |
| TopK.FindBest | common/src/fl_sparse.c:42-52 | the inner loop finds the first unselected index of largest magnitude |
| TopK.Encode | common/src/fl_sparse.c:17-73 | the entries are the quantised selection of the effective gradient and the residual is zero exactly on the selected indices |
| TopK.SelectLoop | common/src/fl_sparse.c:39-60 | the outer loop selects at most topk entries, stopping only when the rest is negligible |
| TopK.UpdateResidual | common/src/fl_sparse.c:63-70 | selected coordinates are cleared and the others carried forward |
| TopKLaws.PrefixOfStableSort | common/src/fl_sparse.c:41-60 | the selected indices are distinct and form a prefix of the stable sort by descending magnitude |
| TopKLaws.SelectionUnique | common/src/fl_sparse.c:41-60 | the selection is determined by the effective gradient and the limit |
| TopKLaws.Contraction | common/src/fl_sparse.c:41-70 | for every weight that grows with the magnitude, n times the weight left behind is at most (n-k) times the whole |
| TopKLaws.ResidualContracts | common/src/fl_sparse.c:62-70 | the residual satisfies n sum r^2 <= (n-k) sum e^2, and likewise for magnitudes |
| ErrorFeedback.EncodingDecodes | common/src/fl_sparse.c:41-88 | the receiver decodes the quantised value at selected coordinates and zero elsewhere |
| ErrorFeedback.Balance | common/src/fl_sparse.c:30-70 | over any run of rounds: what was sent, the final residual and the quantisation errors add up to the gradients and the initial residual |
| ErrorFeedback.LossBound | common/src/fl_sparse.c:30-70 | while the sent values stay in range the errors add up to at most (times sent)/128 |
| ErrorFeedback.FeedbackKeepsTrack | common/src/fl_sparse.c:30-70 | hence sent plus residual tracks the gradients within (times sent)/128 over any number of rounds |
| Sparse.Decode | common/src/fl_sparse.c:75-88 | every coordinate receives the sum of its entries; indices out of range are skipped; accumulate keeps the old value |
| Sparse.DenseUnordered | common/src/fl_sparse.c:83-87 | the dense vector does not depend on the order of the entries |
| Sparse.DecodedDistinct | common/src/fl_sparse.c:83-87 | with distinct indices every coordinate has the value of its one entry |
| Sparse.ParseSerialized | common/src/fl_sparse.c:96-127 | parsing the three-byte form of entries gives them back |
| Sparse.EntryLayout | common/src/fl_sparse.c:108-110 | an entry is its index, low byte first, and its code in two's complement |
| Sparse.WriteFragment | common/src/fl_sparse.c:96-112 | the payload of fragment f is its chunk; a fragment exists exactly when f is below the fragment count |
| Sparse.ReadFragment | common/src/fl_sparse.c:114-127 | a whole payload that fits is appended; a broken or overflowing one leaves the buffer and returns -1 |
| Sparse.ChunksPrefix | common/src/fl_sparse.c:96-112 | the first n chunks are a prefix of the buffer |
| Sparse.FragmentsCover | common/src/fl_sparse.c:90-112 | all chunks together are the buffer, in at most 15 fragments, none exactly for an empty buffer |
| Sparse.FragmentsFull | common/src/fl_sparse.c:90-112 | every fragment but the last has no room for another entry |
| Aggregation.SortSorts | herald/src/fl_aggregator.c:17-21 | the column is sorted |
| Aggregation.SortedUnique | herald/src/fl_aggregator.c:116 | the sorted column is the only sorted permutation, whatever the sort |
| Aggregation.AggregateUnordered | herald/src/fl_aggregator.c:38-126 | mean and median do not depend on the order of the updates |
| Aggregation.MeanExactly | herald/src/fl_aggregator.c:78-82 | the mean is the one value from which the deviations sum to zero |
| Aggregation.MedianNegated | herald/src/fl_aggregator.c:113-121 | the median of the negated values is the negated median, for odd and even n |
| Aggregation.MedianRobust | herald/src/fl_aggregator.c:113-121 | with at most (n-1)/2 arbitrary values the median lies between the smallest and largest honest value, for odd and even n |
| Aggregation.AggregateRobust | herald/src/fl_aggregator.c:58-123 | the same for every coordinate of the aggregated updates |
| Aggregation.MedianBreaks | herald/src/fl_aggregator.c:113-121 | the bound is sharp: for every larger number of faults there is a column whose median leaves the honest range |
| Aggregator.Aggregator.constructor | herald/src/fl_aggregator.c:27-36 | an aggregator with no updates |
| Aggregator.Aggregator.Add | herald/src/fl_aggregator.c:38-68 | the update, cut or completed to the model size, joins the accepted ones; the 65th and later are ignored |
| Aggregator.Aggregator.Finalize | herald/src/fl_aggregator.c:70-126 | the delta is the mean or median of exactly the accepted updates, or zero without any |
| Aggregator.Aggregator.Reset | herald/src/fl_aggregator.c:128-132 | no update is left |
| FragmentPool.Find | herald/src/fl_fragment_pool.c:15-22 | the first slot in a state that belongs to the shard |
| FragmentPool.FirstEmpty | herald/src/fl_fragment_pool.c:24-30 | the first empty slot |
| FragmentPool.TakenOk | herald/src/fl_fragment_pool.c:53-68 | a slot that takes a fragment still counts its bits and is complete exactly when the fragment completes it |
| FragmentPool.IngestKeeps | herald/src/fl_fragment_pool.c:32-69 | popcount(bitmap) = received, an active slot has received < total, and no shard has two active slots: kept by every fragment |
| FragmentPool.ReleaseKeeps | herald/src/fl_fragment_pool.c:82-87 | the same invariants are kept by a release |
| FragmentPool.SweepKeeps | herald/src/fl_fragment_pool.c:89-104 | the same invariants are kept by expiry |
| FragmentPool.DuplicateAnswer | herald/src/fl_fragment_pool.c:53-55 | a duplicate changes nothing and is answered 0; the answer is the one the header documents if and only if the fragment is not a duplicate |
| FragmentPool.DuplicateDeparts | herald/src/fl_fragment_pool.c:32-55 | concrete input: the first of two fragments, received twice by a fresh pool, is answered 0 the second time where the header documents -1 |
| FragmentPool.IngestTally | herald/src/fl_fragment_pool.c:40-68 | a fragment opens and completes at most one slot each, and the number of active slots moves accordingly |
| FragmentPool.SweepTally | herald/src/fl_fragment_pool.c:93-103 | expiry removes exactly the overdue slots |
| FragmentPool.SweptExactly | herald/src/fl_fragment_pool.c:89-104 | a sweep keeps a slot until the timeout has passed since its last fragment, and clears an active slot after that |
| FragmentPool.FragmentPool.constructor | herald/src/fl_fragment_pool.c:9-13 | an empty pool |
| FragmentPool.FragmentPool.SlotFor | herald/src/fl_fragment_pool.c:34-51 | the active slot of the shard, or a fresh one for its first fragment, or none |
| FragmentPool.FragmentPool.Ingest | herald/src/fl_fragment_pool.c:32-69 | the in-place code computes the new slots, the answer -1, 0 or 1 and the count of completed updates |
| FragmentPool.FragmentPool.GetComplete | herald/src/fl_fragment_pool.c:71-80 | the buffer of the first complete slot of the shard, if any |
| FragmentPool.FragmentPool.Release | herald/src/fl_fragment_pool.c:82-87 | every slot with the number of the shard is cleared and no other |
| FragmentPool.FragmentPool.Expire | herald/src/fl_fragment_pool.c:89-104 | exactly the overdue slots are cleared and counted |
| FragmentPool.FragmentPool.CompleteCount | herald/src/fl_fragment_pool.c:106-112 | the number of complete slots |
| Reassembly.FullExactly | herald/src/fl_fragment_pool.c:63-67 | as many fragments as announced means all fragments |
| Reassembly.TakeFragment | herald/src/fl_fragment_pool.c:53-68 | a slot that holds exactly the fragments heard holds exactly one more afterwards, duplicates included |
| Reassembly.HandledKeeps | herald/src/fl_herald.c:200-220 | ingesting a fragment and releasing a completed slot keeps the invariants of the pool |
| Reassembly.OwnFragment | herald/src/fl_fragment_pool.c:32-69 | while the pool has a slot for it, a fragment of the update is answered 1 exactly when it is the last one missing, and the update is then handed out, and -1 exactly when index 0 has not been heard |
| Reassembly.QuietSame | herald/src/fl_fragment_pool.c:32-104 | fragments and completions of other shards, and expiry of other slots, leave the slots of a shard untouched |
| Reassembly.Reassembled | herald/src/fl_fragment_pool.c:32-104 | over any log in which the shard sends fragments of one update, with duplicates before and after completion, with any other traffic, with expiry of its own slot and with first fragments that a full pool rejects: the update is handed out once for every completion, and the slot holds exactly the fragments since the last completion or loss |
| Reassembly.Reassembly | herald/src/fl_fragment_pool.c:32-80 | after any such delivery the answer is 1 exactly at a fragment that is taken and completes the update, and the buffer handed out decodes to the same dense vector as the original |
| Reassembly.Consecutive | herald/src/fl_fragment_pool.c:32-87 | two updates of a shard, one after the other: once the fragments of the first are all accounted for, what is handed out is copies of the first and then copies of the second |
| Mixing.UpdatesMix | herald/src/fl_fragment_pool.c:40-68 | from a slot that still holds a part of the first update, the fragments of the second that it lacks make the pool hand out one buffer: the fragments held from the first, the others from the second |
| Mixing.BlendExactly | herald/src/fl_fragment_pool.c:40-68 | that mixture is the second update exactly when the two agree in the fragments held, and the first exactly when they agree in the others |
| Mixing.KeptApartExactly | herald/src/fl_fragment_pool.c:32-104 | whatever is sent of the second update and whatever else happens, only copies of it are handed out, if and only if the two updates, of as many fragments, agree in the fragments that the slot still holds of the first |
| Mixing.ApartAfter | herald/src/fl_fragment_pool.c:32-104 | the same after any delivery of the first update, with the fragments held since its last completion or loss |
| Completion.AtLeastOnce | herald/src/fl_fragment_pool.c:40-67 | the fragments are complete at least once if and only if at some moment all of them have arrived, from an index 0 on, since the slot was last lost |
| Completion.Restart | herald/src/fl_fragment_pool.c:40-67 | after a completion or a loss counting starts afresh |
| Completion.ExactlyOnce | herald/src/fl_fragment_pool.c:40-67 | they are complete exactly once if and only if what comes after the shortest sufficient beginning does not suffice again |
| Timely.LostExactly | herald/src/fl_fragment_pool.c:89-104 | the slot of a shard is lost to a sweep if and only if it has fragments and the sweep comes more than the timeout after the last new one |
| Timely.NothingLostExactly | herald/src/fl_fragment_pool.c:53-104 | over any log in which a shard sends fragments of one update: nothing gathered is lost if and only if every sweep while fragments are held comes at most the timeout after the last new one |
| Timely.FinishedInTime | herald/src/fl_fragment_pool.c:53-104 | with all sweeps in time, an update of which all fragments have been heard, from an index 0 on, is handed out |
| Transmission.FragmentOnAir | common/src/fl_sparse.c:90-112 | every fragment frame fits the radio, decodes to itself and carries its chunk |
| Transmission.MakeFragment | shard/src/fl_shard.c:256-266 | cutting, framing and laying out a fragment gives those bytes |
| Round.CloseInStep | herald/src/fl_round.c:42-47 | the round number stays the number of rounds modulo 256, also when the 32-bit counter wraps |
| HeraldSteps.RoundEndsExactly | herald/src/fl_herald.c:232-275 | an iteration moves on to the next round if and only if the window that opened with this one has passed or the shards that have reported, the one it completes included, are max_shards; the next window opens at the clock reading then |
| Round.MinShardsIgnored | herald/src/fl_round.c:34-40 | exactly when closing departs from the comment on the function and from the overview in the header |
| Capacity.MinShardsDeparts | herald/src/fl_herald.c:188-236 | after one update while the window is open: with max_shards at most 1 and min_shards above, the Herald closes the round against the comment; the other way round it waits against the overview |
| Round.Scheduler.Open | herald/src/fl_round.c:16-25 | a fresh collection window under the current number |
| Round.Scheduler.ShardComplete | herald/src/fl_round.c:27-32 | one more shard, and whether max_shards is reached |
| Round.Scheduler.ShouldCloseNow | herald/src/fl_round.c:34-40 | closes exactly while collecting and after the window or max_shards |
| Round.Scheduler.Close | herald/src/fl_round.c:42-47 | the round is counted and the number advanced |
| HeraldSteps.StartInv | herald/src/fl_herald.c:78-89 | the invariant holds when the loop starts |
| HeraldSteps.CompleteIsReleased | herald/src/fl_herald.c:200-220 | a completed slot is released in the same iteration |
| HeraldSteps.InvKept | herald/src/fl_herald.c:188-283 | every iteration keeps: phase COLLECTING, current round = round id = rounds modulo 256, no complete slot, updates held = min(shards complete, 64), shards complete below max_shards |
| HeraldRuns.SlotsAccountedFor | herald/src/fl_herald.c:188-283 | over every run, slots opened = completed + expired + still active; the two counters of the pool follow modulo 2^32, and as many slots are completed as updates are finished |
| HeraldRuns.EachUpdateOnce | herald/src/fl_herald.c:202-278 | with max_shards <= 64 every finished update is aggregated in exactly one round, in order, or waits in the running round |
| HeraldRuns.LateUpdateIgnored | herald/src/fl_aggregator.c:41-66 | in the iteration that finishes an update, it is counted but not accepted if and only if 64 have already reported |
| Capacity.LateLost | herald/src/fl_herald.c:202-278 | such an update is not aggregated later either: rounds closed and updates waiting stay what they were |
| Capacity.OneTooMany | herald/src/fl_aggregator.c:41-42 | with max_shards above 64: one frame received 65 times in a round is finished 65 times and aggregated 64 times |
| Capacity.EachUpdateExactly | herald/src/fl_herald.c:188-283 | from a Herald that has just started, every finished update of every run is aggregated, or waits for its round to close, if and only if max_shards <= 64; the clock may be set back |
| Capacity.EachUpdateInTime | herald/src/fl_herald.c:188-283 | the same on every run in which no reading of the clock is before an earlier one, if and only if max_shards <= 64 or the window is 0 |
| HeraldRuns.ModelConserved | herald/src/fl_herald.c:240-247 | over every run the global model is the initial one plus the aggregate of each round that closed with updates |
| HeraldRuns.MeansConserved | herald/src/fl_herald.c:240-247 | with FedAvg, coordinate by coordinate: the initial value plus the mean of the updates of each round |
| Agreement.ModelsDiffer | herald/src/fl_herald.c:144-171 | after any number of rounds, the model of the Herald and that of a shard which has applied every delta differ in each coordinate by their initial difference plus, for each round, the aggregate where it was not sent and its quantisation error where it was |
| Agreement.DriftOfRun | herald/src/fl_herald.c:233-251 | the same equation for the rounds of any run of the Herald |
| Agreement.KeepsDistance | herald/src/fl_herald.c:144-171 | a round leaves the distance of the two models in a coordinate as it was if and only if its aggregate there is a multiple of 1/128 that is a code, when it is sent, or zero, when it is not |
| Agreement.ModelsPart | herald/src/fl_herald.c:144-149 | a run in which the models part: with 2 to 19 parameters, one round of one update that moves two of them by 0.5, whatever entries are sent |
| Agreement.NeverSent | herald/src/fl_herald.c:144-149 | a coordinate that is never among those sent never moves on the shards, as no residual makes up for it |
| HeraldRuns.RunTraced | herald/src/fl_herald.c:190-231 | a run of the Herald is a run of its pool, and the updates it finishes for a shard are what the pool hands out for it |
| HeraldRuns.UpdateArrives | herald/src/fl_herald.c:190-228 | whatever else arrives, duplicates included, and whatever is lost to expiry or a full pool, the Herald finishes the update of a shard once for every time its fragments are complete, each time with the dense vector the shard encoded |
| HeraldRuns.UpdateOnce | herald/src/fl_herald.c:190-228 | it is finished exactly once if and only if what comes after the shortest sufficient beginning does not suffice again |
| HeraldRuns.DuplicateFinishedTwice | herald/src/fl_herald.c:190-228 | from any state with an empty slot and none for the shard, the only fragment of an update received twice is finished twice |
| HeraldRuns.DuplicateWitness | herald/src/fl_herald.c:190-228 | such a frame, to a Herald that has just started |
| Transmission.SendFragments | herald/src/fl_herald.c:151-171 | every fragment is written once, in order, whether or not earlier writes failed; success exactly when no write failed |
| Herald.SendDelta | herald/src/fl_herald.c:144-176 | the frames written are all fragments, in order, of the top-k encoding of the delta; an error exactly when a write failed |
| Broadcasts.BeaconLayout | herald/src/fl_herald.c:121-137 | every byte of the beacon but the checksum: the round, window, number of parameters, min_shards, epochs and learning rate of the policy, and no noise |
| Broadcasts.RoundCloseLayout | herald/src/fl_herald.c:253-264 | every byte of the round close but the checksum: the round, the shards aggregated and the delay |
| Broadcasts.FragmentLayout | common/src/fl_frame.c:32-57 | every byte of an update or delta fragment but the checksum |
| Broadcasts.BroadcastHeard | shard/src/fl_shard.c:91-153 | a shard in any state that hears the beacon trains for the round it names, one that hears the round close is idle, and nothing else of it changes |
| Broadcasts.NextRound | herald/src/fl_herald.c:253-283 | a shard that hears the last of the frames which close a round trains for the round the Herald then collects |
| Broadcasts.ATenth | shard/src/fl_shard.c:231-232 | shards and Herald select a tenth of the parameters, but at least one |
| Herald.Herald.constructor | herald/src/fl_herald.c:78-89 | the initial state, with the first round open |
| Herald.Herald.Receive | herald/src/fl_herald.c:190-228 | the receive path of the loop on the real objects, and its acknowledgement |
| Herald.Herald.TakeFrame | herald/src/fl_herald.c:196-227 | an UPDATE frame on the real objects: ingested, acknowledged and taken exactly when it completes an update |
| Herald.Herald.TakeUpdate | herald/src/fl_herald.c:213-222 | a complete buffer is decoded, added, released and counted |
| Herald.Herald.Apply | herald/src/fl_herald.c:240-251 | the aggregate is added to the model in place and sent |
| Herald.Herald.Close | herald/src/fl_herald.c:233-278 | the end of a round on the real objects, and the frames it sends in order |
| Herald.Herald.Iterate | herald/src/fl_herald.c:188-283 | one iteration on the real objects is one step of the transition system |
| Herald.Herald.Run | herald/src/fl_herald.c:188-283 | the loop on any list of inputs is the run of the transition system, and keeps the invariant |
| ShardSteps.HeardKeeps | shard/src/fl_shard.c:81-169 | every received packet keeps the shard well formed |
| ShardSteps.TickKeeps | shard/src/fl_shard.c:171-305 | every tick keeps the shard well formed |
| ShardSteps.TrainingMeaning | shard/src/fl_shard.c:192-220 | the parameters before training plus the gradient are the trained parameters |
| ShardRuns.SentIsPrefix | shard/src/fl_shard.c:222-279 | over every interleaving and every pattern of send failures: in TX the sent frames are a prefix of the fragments, in AWAIT_ACK they are all of them |
| ShardRuns.InOrder | shard/src/fl_shard.c:254-266 | fragments sent one after the other are a delivery of the update, in ascending order |
| ShardRuns.UplinkCompletes | shard/src/fl_shard.c:222-279 | what a shard in AWAIT_ACK has sent makes the pool hand out exactly one update, which decodes to the vector of the update of the shard |
| ShardRuns.NothingToSend | common/src/fl_sparse.c:54 | the update is empty exactly when every effective gradient is below 1e-9 |
| ShardRuns.SilentExactly | shard/src/fl_shard.c:222-279 | on every run to AWAIT_ACK: nothing has been sent since the encoding if and only if the update is empty, and if and only if every effective gradient of that encoding was below 1e-9 |
| ShardRuns.SilentRun | shard/src/fl_shard.c:136-145 | such a shard waits, and any ACK that it hears completes its round: a run of a fresh shard, with or without noise, with one completed round and nothing sent |
| ShardRuns.OneAckEach | shard/src/fl_shard.c:136-145 | over any run a shard completes no more rounds than it hears ACKs |
| ShardRuns.TakesAck | shard/src/fl_shard.c:136-145 | an ACK from whatever sender and for whatever round completes the round of every waiting shard |
| Answers.AnswerForAnother | herald/src/fl_herald.c:202-211 | joined with the Herald: the ACK it sends for the update of one shard completes the round of another that has sent nothing |
| Answers.CompletedAtMost | herald/src/fl_herald.c:202-211 | on every such run it completes at most as many rounds as the Herald finishes updates of all shards together |
| Answers.EveryAnswer | shard/src/fl_shard.c:136-145 | and as many it can complete: a run of any shard that sends nothing and completes a round with every ACK of the Herald |
| Answers.CompletedAgainstFinished | shard/src/fl_shard.c:136-145 | over all runs of a shard that hears ACKs of the Herald, each at most once, in order and with losses: it never completes more rounds than the Herald has finished updates for it, if and only if all the updates which the Herald finishes are of that shard |
| ShardRuns.FeedbackOfRun | shard/src/fl_shard.c:222-245 | over any run the encodings of a shard form one run of error feedback, whose final residual is that of the shard |
| ShardRuns.UpdatesKeepTrack | shard/src/fl_shard.c:222-245 | hence, while the sent values stay in range, what all updates of a run decode to plus the residual tracks the gradients within (times sent)/128 in each coordinate |
| ShardRuns.ErrorsCounted | shard/src/fl_shard.c:81-305 | over any run the two error counters count exactly the failed sends and the received packets that are no frames, modulo 2^32 |
| ShardRuns.PrivacyAccounted | shard/src/fl_shard.c:222-279 | over every interleaving, rounds completed and in flight never exceed encodings, and the privacy counter counts exactly the encodings with noise |
| ShardRuns.PrivacyBound | common/src/fl_dp.c:75-94 | with noise, on every run from a fresh shard with fewer than 2^32 encodings (the width of the counter): completed + in flight <= spent |
| ShardRuns.UnpaidRun | common/src/fl_dp.c:77 | without noise, a run of a beacon, a training and an encoding breaks that bound |
| ShardRuns.PrivacyExactly | common/src/fl_dp.c:75-94 | the bound holds on all such runs from a fresh shard if and only if noise is enabled with positive sigma |
| ShardRuns.DeltaArrives | shard/src/fl_shard.c:101-134 | whatever the order and the repetitions of the fragments of a delta: after as many as there are (or the first one, if it is not fragment 0) the buffer is applied once and the shard is idle; before that the parameters are unchanged |
| ShardRuns.WholeExactly | shard/src/fl_shard.c:101-124 | the buffer that is applied is the delta, in some order, if and only if fragment 0 comes first and no fragment is repeated |
| ShardRuns.PartApplied | shard/src/fl_shard.c:101-124 | concrete input: when fragment 1 of several comes first it is applied alone, and it is not the delta |
| ShardRuns.DeltaFollowed | shard/src/fl_shard.c:101-134 | with fragment 0 first and the others in any order the shard adds exactly what the whole delta decodes to |
| ShardRuns.DeltaMeaning | shard/src/fl_model.c:167-172 | with fragment 0 first and the others in any order, each selected parameter moves by the Q8 value of its delta and every other one stays |
| Shard.Shard.constructor | shard/src/fl_shard.c:53-79 | a fresh idle shard with a zero residual |
| Shard.Shard.OnRx | shard/src/fl_shard.c:81-169 | fl_shard_on_rx on the object computes the specified state |
| Shard.Shard.TakeDelta | shard/src/fl_shard.c:101-134 | a delta fragment is buffered, and the delta applied when the count is reached |
| Shard.Shard.ApplyDelta | shard/src/fl_model.c:167-172 | every parameter gains its delta, in place |
| Shard.Shard.Train | shard/src/fl_shard.c:192-220 | the gradient to send is the change of every parameter over local training |
| Shard.Shard.AddNoise | common/src/fl_dp.c:75-94 | noise is added, and the round counted, exactly when enabled with positive sigma |
| Shard.Shard.EncodeUpdate | shard/src/fl_shard.c:222-245 | noise, selection, residual and fragment count in place |
| Shard.Shard.Transmit | shard/src/fl_shard.c:247-279 | one attempt to send the next fragment, advancing only on success |
| Shard.Shard.Tick | shard/src/fl_shard.c:171-305 | fl_shard_tick on the object is a tick of the transition system |

## Left out

- Poly1305.Mac.Finish: requires that no full block is held back, because the code then writes outside its 16-byte buffer; `HeldBlock` says exactly when that is.
- Poly1305.Authenticate: restricted to messages whose length is 0 or not a multiple of 16, for the same reason.
- Sealing.RoundTrip: restricted to lengths that are 0 or not a multiple of 16, for the same reason.
- Sealing.Session.Encrypt: an active session is restricted to lengths that are 0 or not a multiple of 16, for the same reason.
- Sealing.Session.Decrypt: an active session is restricted to lengths that are 0 or not a multiple of 16, for the same reason.
- FragmentPool.FragmentPool.Ingest: requires a fragment index below the 40 bits of the bitmap when the fragment reaches a slot; the source does not check it. Runs assume it of every frame whose announced total is accepted.
- Frame.Decode: received bytes are at most the 224 bytes of a frame, as in both receive buffers; the truncation of longer inputs is not modelled.
- Reassembly.Reassembly: all fragments of the shard in the log belong to one update, because the pool does not tell updates apart; `Consecutive` joins two such logs and `UpdatesMix` is what happens otherwise. `KeptApartExactly` is for two updates of as many fragments. A slot is released as soon as it is complete, as the Herald does.
- HeraldRuns.EachUpdateOnce: needs max_shards <= 64; `EachUpdateExactly` says that it fails otherwise.
- Answers.CompletedAgainstFinished: the radio brings every ACK at most once and in order; the same ACK heard twice is not considered. The two machines share no clock: the shard may hear an ACK at any moment of its run.
- IEEE-754 rounding and NaN; `sqrtf`, `expf`, `logf`.
- `fl_grad_l2` and `fl_grad_clip` (square root).
- Local training, forward and backward passes: an arbitrary change of the parameters.
- The noise generator and its distribution: an arbitrary noise vector.
- The elliptic-curve group law, key agreement, `kdf`, `fl_crypto_handshake` and nonces.
- Secrecy and unforgeability; only functional claims are made about the ciphers.
- The encrypted path of UPDATE frames through shard and Herald (the tag is not transmitted); encryption is modelled on its own and the protocol with encryption off.
- FedProx: its coefficient is never set by `fl_agg_init`, and with coefficient 0 it is the mean.
- `median_shard_samples` and the `shard_data_size` argument, which no result depends on.
- The inside of `qsort`: the sorted column is unique, so any correct sort gives it.
- `min_shards`, `shards_partial` beyond resetting it, and callbacks.
- Serial and radio I/O beyond what is written and which writes succeed, sleeping, logging, non-volatile storage, duty-cycle bookkeeping.
- The zero padding of the frame structure behind the payload, which is not sent.
- `fl_version.c`, `fl_error.c`, string tables, examples, build files, and `common/src/fl_model.c`, which the build does not use.
