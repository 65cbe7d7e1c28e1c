# OpenDMR AMBE+2 framing and quantiser skeleton, in Dafny

This project models the bit-exact core of OpenDMR, a DMR AMBE+2 (3600x2450)
voice codec library, and proves properties of that model. The model covers:

- **Frame codec** (`opendmr.cpp`). Nine quantiser fields `b[0..8]` are packed
  MSB first into 49 voice bits with widths 7, 5, 5, 9, 7, 5, 4, 4, 3. The bits
  split into C0, C1 and C2+C3. The 72-bit frame carries:
  - A: the Golay (24,12) codeword of C0;
  - B: the Golay (23,12) codeword of C1, XOR a 23-bit mask;
  - C: C2+C3, unprotected.

  The mask comes from a 16-bit linear congruential generator seeded by C0
  (`compute_prng_mask_23bit`). The frame is written bit by bit into a 9-byte
  buffer (`encode_ambe_frame`). The decoder reverses the gather, the decoding
  and the descrambling (`decode_ambe_frame`). Frames convert between 9 bytes
  and 72 one-bit entries (`opendmr_convert_frame`). The public entry points
  check their arguments for null. The encoder handle keeps a clamped gain
  setting.
- **Encoder internals** (`encoder/mbeenc.cpp`):
  - the `READ_BIT`/`WRITE_BIT` macros;
  - the fixed 49-position scatter `encode_49bit`;
  - the interleaver `encode_dmr` with its `DMR_A/B/C_TABLE` and `PRNG_TABLE`;
  - the discrete decisions of `encode_ambe`: the pitch-index walk over
    `b0_lookup` with its silence fallback, the "first strictly smaller wins"
    codebook searches, and the rule that a sub-band of at most two
    coefficients gets index 0.

Modules, one concept each:

| file | module | contents |
|---|---|---|
| bits.dfy | Bits | words as `nat`, `(x >> k) & 1`, MSB-first bit strings, `\|`, `&`, `^` |
| bytes.dfy | Bytes | byte buffers as bit strings, `READ_BIT`, `WRITE_BIT` |
| golay.dfy | Golay | the Golay operations as parameters, with their assumed contract |
| scrambler.dfy | Scrambler | `compute_prng_mask_23bit` and its pure specification |
| frame.dfy | FrameCodec | `encode_ambe_frame`, `decode_ambe_frame`, `opendmr_convert_frame` |
| interleave.dfy | DmrInterleave | the DMR tables and `encode_dmr` |
| layout.dfy | ParamLayout | `encode_49bit` |
| pitch_table.dfy | PitchTable | `b0_lookup` and its shape |
| quantizer.dfy | AmbeQuantizer | the discrete skeleton of `encode_ambe` |
| api.dfy | OpenDmr | encoder and decoder handles; `opendmr_encode`, `opendmr_decode` |

Collaborators:

- **Golay operations.** `CGolay24128` is not part of this model. Its four
  operations are a `Golay.Codec` value, and proofs rely only on
  `Golay.Valid`. That predicate assumes a (24,12) codeword has 24 bits and a
  (23,12) codeword 23 bits, and that decoding an unaltered codeword of a
  12-bit value gives that value back. Every theorem that needs these facts
  takes `Valid(g)` as a hypothesis.
- **The analysis and the tables the quantiser consults.** The speech analysis
  (`encode_dmr_params`, the IMBE vocoder) and the tables `AmbeLtable` and
  `AmbeLmprbl` are not part of this model. They enter as parameters: the
  fields, the harmonic-count table `lTable`, the sub-band sizes `bands`, and
  the candidate distances `costs`.

Imperative code is modelled as methods over arrays:

- `frame72`, `ambe_d`, `bits49`, `pr[]` and `b[]` are arrays.
- `in` of `encode_dmr` is an array. It is read in full before `out` is cleared, so the two may alias.
- The fields, and the byte buffers the gather loops read, are `seq` values.
- Each loop carries an invariant. Each method is proved against a pure
  function, for example `WireBits`, `ReceivedBits`, `PrngMask`, `DmrBits`
  and `Layout49`. The properties are proved as lemmas about those functions.

## Model

| member | source | states |
|---|---|---|
| Bytes.WriteBit | encoder/mbeenc.cpp:199 | after `WRITE_BIT(p, i, b)` the buffer's bits are the old bits with bit i replaced by `b != 0` and nothing else changed |
| Bytes.WriteThenRead | encoder/mbeenc.cpp:198-199 | `READ_BIT` after `WRITE_BIT` gives `b != 0` at i and the old value at every other position |
| Bits.XorTwice | opendmr.cpp:150 | XOR-ing the same mask twice gives the word back, so descrambling undoes scrambling |
| Scrambler.ComputePrngMask23 | opendmr.cpp:79-98 | the returned mask equals `PrngMask(aOrig)`, the MSB-first value of the 23 thresholded generator outputs |
| Scrambler.Generate | opendmr.cpp:81-86 | `pr[k]` is the k-th generator state: `pr[0]` is `16 * aOrig` truncated to 32 and then 16 bits, and each next state is `(173 * prev + 13849) mod 65536` |
| Scrambler.Threshold | opendmr.cpp:88-90 | after the loop `pr[i]` is 1 exactly when the generator state was at least 32768, for i = 1..23 |
| Scrambler.Collect | opendmr.cpp:92-97 | setting bit `23 - i` for each nonzero `pr[i]` yields the MSB-first value of `pr[1..23]` |
| Scrambler.PrngMaskBound | opendmr.cpp:92-97 | the mask is below 2^23 |
| Scrambler.PrngMaskBit | opendmr.cpp:88-96 | bit `23 - i` of the mask is set iff generator state i is at least 32768, for i = 1..23 |
| Scrambler.PrngMaskLow12 | opendmr.cpp:82-85 | the mask depends only on the low 12 bits of aOrig |
| FrameCodec.PackVoiceBits | opendmr.cpp:267-275 | `bits49` is the MSB-first concatenation of the low `b_lengths[i]` bits of each field |
| FrameCodec.PackedField | opendmr.cpp:267-275 | voice bits `Offsets[f]` to `Offsets[f+1]-1` are field f's low `Widths[f]` bits, and unpacking them gives `b[f] mod 2^Widths[f]` |
| FrameCodec.UnpackPack | opendmr.cpp:267-275 | unpacking the packed fields gives every field modulo two to its width |
| FrameCodec.PackUnpack | opendmr.cpp:267-275 | every 49-bit string is the packing of its unpacked fields |
| FrameCodec.PackLowBitsOnly | opendmr.cpp:267-275 | two field vectors pack to the same bits iff they agree in the low width-many bits of every field |
| FrameCodec.GatherHalves | opendmr.cpp:279-283 | c0 and c1 are the MSB-first values of voice bits 0-11 and 12-23 |
| FrameCodec.GatherCBlock | opendmr.cpp:294-297 | `c_block` is the MSB-first value of voice bits 24-48 |
| FrameCodec.ClearFrame | opendmr.cpp:300 | after the memset every frame bit is 0 |
| FrameCodec.WriteField | opendmr.cpp:302-326 | one output loop writes the n-bit value MSB first into a cleared bit range and leaves every other bit unchanged |
| FrameCodec.WriteBlocks | opendmr.cpp:300-326 | the frame bits are exactly A (24 bits), B (23 bits) and the C block (25 bits), MSB first, with no other bit set |
| FrameCodec.EncodeAmbeFrame | opendmr.cpp:264-327 | the 9-byte frame carries exactly `WireBits` of the packed fields |
| FrameCodec.WireLayout | opendmr.cpp:279-326 | frame bit i < 24 is bit `23 - i` of `encode24128(c0)`; bit i in 24..46 is bit `46 - i` of `encode23127(c1) XOR mask(c0)`; bits 47-71 are voice bits 24-48 |
| FrameCodec.ReadField | opendmr.cpp:116-143 | a gather loop returns the MSB-first value of frame bits start to start+n-1 |
| FrameCodec.SpreadBits | opendmr.cpp:156-166 | a copy loop writes the n-bit value MSB first into entries start to start+n-1 and keeps the rest |
| FrameCodec.SpreadBlocks | opendmr.cpp:154-166 | `ambe_d` is aOrig (12 bits), bOrig (12 bits) and c (25 bits), MSB first |
| FrameCodec.DecodeAmbeFrame | opendmr.cpp:114-167 | `ambe_d` becomes `ReceivedBits` of the frame: Golay-decoded A, B descrambled with the mask of the decoded A and then decoded, and C verbatim |
| FrameCodec.FrameRoundTrip | opendmr.cpp:146-166 | with a valid Golay codec, decoding an encoded frame returns exactly the 49 voice bits |
| FrameCodec.ReceivedProtectedPart | opendmr.cpp:116-162 | received voice bits 0-23 depend only on frame bits 0-46 |
| FrameCodec.ReceivedCBlock | opendmr.cpp:136-143 | received voice bit `24 + i` is frame bit `47 + i`, for i < 25 |
| FrameCodec.CBlockFlip | opendmr.cpp:136-166 | flipping frame bit i in 47..71 flips received bit `i - 23` and changes no other received bit |
| FrameCodec.CBlockFlipInFrame | opendmr.cpp:114-166 | the same, for one flipped bit of the 9-byte frame |
| FrameCodec.ConvertFrame | opendmr.cpp:357-378 | to bits: `bits[i]` is frame bit i and the bytes stay unchanged; to bytes: the bytes' bits are the array's entries normalised to 0/1 and the array stays unchanged |
| FrameCodec.FrameToBits | opendmr.cpp:361-367 | each of the 72 entries is the corresponding frame bit |
| FrameCodec.BitsToFrame | opendmr.cpp:368-377 | after the memset and the loop, frame bit i is 1 iff `bits[i]` is nonzero |
| FrameCodec.ConvertRoundTrip | opendmr.cpp:357-378 | bytes to bits and back returns the original 9 bytes |
| FrameCodec.NormAllOfBits | opendmr.cpp:368-377 | an array of 0/1 entries survives bits to bytes to bits unchanged |
| DmrInterleave.TableA | encoder/mbeenc.cpp:144-148 | `DMR_A_TABLE` is 0, 4, .., 68, then 1, 5, .., 21 |
| DmrInterleave.TableB | encoder/mbeenc.cpp:150-154 | `DMR_B_TABLE` is 25, 29, .., 69, then 2, 6, .., 42 |
| DmrInterleave.TableC | encoder/mbeenc.cpp:156-160 | `DMR_C_TABLE` is 46, 50, .., 70, then 3, 7, .., 71 |
| DmrInterleave.SlotOfTable | encoder/mbeenc.cpp:144-160 | every table entry is below 72, and `Slot` maps it back to its block and index |
| DmrInterleave.TableOfSlot | encoder/mbeenc.cpp:144-160 | every frame position 0..71 is the table entry of the slot `Slot` assigns it |
| DmrInterleave.TablesArePermutation | encoder/mbeenc.cpp:144-160 | the three tables together have 72 entries, all distinct, covering 0..71 |
| DmrInterleave.InterleaveAt | encoder/mbeenc.cpp:595-608 | output position `TABLE[blk][i]` carries bit i of block blk |
| DmrInterleave.DeinterleaveInterleave | encoder/mbeenc.cpp:593-608 | reading the three blocks back through the tables gives the blocks |
| DmrInterleave.InterleaveDeinterleave | encoder/mbeenc.cpp:593-608 | every 72-bit frame is the interleaving of the blocks read from it, so each output bit is written exactly once |
| DmrInterleave.ReadHalves | encoder/mbeenc.cpp:568-575 | aOrig and bOrig are the MSB-first values of input bits 0-11 and 12-23 |
| DmrInterleave.ScatterBlock | encoder/mbeenc.cpp:595-608 | one output loop writes block blk, MSB first, through its table into a frame where that block was zero |
| DmrInterleave.EncodeDmrWith | encoder/mbeenc.cpp:562-609 | the output frame's bits are `DmrBits` of the input bits, for every scrambling table that aOrig indexes |
| DmrInterleave.EncodeDmr | encoder/mbeenc.cpp:562-609 | `encode_dmr` as written: defined only when aOrig is below the length of `PRNG_TABLE` |
| DmrInterleave.EncodeDmrFullTable | encoder/mbeenc.cpp:562-609 | with a table of 4096 entries, every input is in range and the output is `DmrBits` of the input |
| DmrInterleave.DmrLayout | encoder/mbeenc.cpp:564-608 | `DMR_A_TABLE[i]` carries bit `23 - i` of `encode24128(aOrig)`; `DMR_B_TABLE[i]` carries bit `22 - i` of the scrambled B block; `DMR_C_TABLE[i]` carries input bit `24 + i` |
| DmrInterleave.DmrDescramble | encoder/mbeenc.cpp:588-590 | XOR with the same shifted table entry gives back the shifted (23,12) codeword of bOrig |
| DmrInterleave.DmrRecoverAC | encoder/mbeenc.cpp:577-608 | decoding the A block read back from the output gives aOrig, and the C block read back is input bits 24-48 |
| DmrInterleave.DmrFirstBBitClear | encoder/mbeenc.cpp:588-602 | both halves are shifted right by one, so output bit 25 (`DMR_B_TABLE[0]`) is always 0 |
| DmrInterleave.PrngIndexOutOfRange | encoder/mbeenc.cpp:163-195 | `PRNG_TABLE` has 248 entries, but input bytes FF F0 give aOrig = 4095 |
| ParamLayout.Encode49Bit | encoder/mbeenc.cpp:209-260 | `outp` becomes `Layout49(b)`: position k holds bit `ShiftOf[k]` of field `FieldOf[k]` |
| ParamLayout.Layout49 | encoder/mbeenc.cpp:209-260 | all 49 outputs are 0 or 1 |
| ParamLayout.PositionsShape | encoder/mbeenc.cpp:209-260 | every position holds one bit of one field within its width, and `Rows` maps that bit back to the position |
| ParamLayout.RowsOk | encoder/mbeenc.cpp:209-260 | every bit of every field within its width has a position that holds it, so the positions are a bijection onto the fields' bits |
| ParamLayout.LayoutRow | encoder/mbeenc.cpp:209-260 | the positions of field f, read in order, are its low `Widths[f]` bits MSB first |
| ParamLayout.UnlayoutLayout | encoder/mbeenc.cpp:209-260 | the fields can be recovered from the output, each modulo two to its width |
| ParamLayout.LayoutUnlayout | encoder/mbeenc.cpp:209-260 | every 49-bit string is the layout of the fields read from it |
| ParamLayout.LayoutLowBitsOnly | encoder/mbeenc.cpp:209-260 | two field vectors give the same output iff they agree in the low width-many bits |
| PitchTable.B0LookupFacts | encoder/mbeenc.cpp:27-141 | `b0_lookup` has 898 entries in 0..124, starts at 0, ends at 124, and each step rises by 0 or 1 |
| AmbeQuantizer.FirstMin | encoder/mbeenc.cpp:349-358 | the search loop returns an index whose distance is at most every distance and strictly below every earlier one |
| AmbeQuantizer.FirstMinIndexIsFirstMin | encoder/mbeenc.cpp:353 | the recursive reference search picks a first minimum |
| AmbeQuantizer.FirstMinCharacterized | encoder/mbeenc.cpp:353 | an index is a first minimum iff it is the reference search's index, so the rule determines the index uniquely |
| AmbeQuantizer.StartIndex | encoder/mbeenc.cpp:272 | `(ref_pitch >> 5) - 159` is the index i with `32 * (i + 159) <= ref_pitch < 32 * (i + 160)` |
| AmbeQuantizer.HarmonicsMonotone | encoder/mbeenc.cpp:281-283 | along `b0_lookup` the harmonic count never decreases, given the harmonic table grows by 0 or 1 from one pitch field to the next |
| AmbeQuantizer.PitchStep | encoder/mbeenc.cpp:271-300 | fallback iff the start index is out of range or no index has `num_harms` harmonics; otherwise b0i is in range, its count is `num_harms`, no index between the start and b0i has it, `b[0] = b0_lookup[b0i]`, and `b[1..8]` are unchanged |
| AmbeQuantizer.WalkStep | encoder/mbeenc.cpp:286-299 | each step keeps moving the same way, and falling off an end means no index has the count |
| AmbeQuantizer.Fallback | encoder/mbeenc.cpp:273-279 | b becomes 40, 0, 0, 0, 0, 0, 0, 0, 0 |
| AmbeQuantizer.HigherOrder | encoder/mbeenc.cpp:440-457 | a sub-band of at most two coefficients gets 0, otherwise the first minimum of its codebook |
| AmbeQuantizer.Searches | encoder/mbeenc.cpp:309-514 | `b[1..8]` are the first minima of their searches, with the J ≤ 2 rule for `b[5..8]`, and `b[0]` is kept |
| AmbeQuantizer.EncodeAmbe | encoder/mbeenc.cpp:266-514 | either the pitch cannot be encoded and b is the fallback, or b[0] encodes the pitch and `b[1..8]` are quantised as `Searches` states |
| AmbeQuantizer.EncodedFits | encoder/mbeenc.cpp:281-514 | the fields of an encoded pitch are nonnegative and fit widths 7, 5, 5, 9, 7, 5, 4, 4, 3 |
| AmbeQuantizer.FallbackFits | encoder/mbeenc.cpp:273-279 | the fallback fields fit their widths |
| OpenDmr.ClampGain | opendmr.cpp:251-252 | the stored gain is the request pulled into [-20, 20], and unchanged inside it |
| OpenDmr.ClampIdempotent | opendmr.cpp:251-252 | clamping a clamped gain changes nothing |
| OpenDmr.ClampMonotone | opendmr.cpp:251-252 | a larger request never stores a smaller gain |
| OpenDmr.Encoder.constructor | opendmr.cpp:207-222 | a new handle has `gain_db = 0` and an engine at unit gain |
| OpenDmr.EncoderReset | opendmr.cpp:232-245 | reset keeps `gain_db`, gives a fresh engine the stored gain, and ignores a null handle |
| OpenDmr.SetGain | opendmr.cpp:247-256 | stores the clamped gain in the handle and the engine; a null handle is ignored |
| OpenDmr.Encode | opendmr.cpp:329-344 | returns false and changes nothing when the handle, PCM or frame pointer is null; otherwise the frame carries `WireBits` of the analysed fields |
| OpenDmr.Decode | opendmr.cpp:169-193 | returns false when the handle, frame or PCM pointer is null; otherwise returns the voice bits `decode_ambe_frame` recovers |
| OpenDmr.EncodeThenDecode | opendmr.cpp:264-344 | a frame from `Encode` decodes to the encoded fields in their low width-many bits |
| OpenDmr.FittingFieldsSurvive | opendmr.cpp:264-344 | fields that fit their widths are returned exactly by decoding their frame |
| OpenDmr.EncodedFieldsSurvive | encoder/mbeenc.cpp:286-514 | the fields `encode_ambe` gives for a found pitch survive framing and decoding exactly, with no modulus |
| OpenDmr.FallbackSurvives | encoder/mbeenc.cpp:273-279 | the silence fallback fields survive framing and decoding exactly |

## Left out

- `CGolay24128` is not part of this model. Its contract is assumed as `Golay.Valid`, and error correction and error counting are not modelled.
- mbelib is not part of this model. `opendmr_decode` returns the 49 voice bits it would hand to `mbe_processAmbe2450Data`, not PCM. The decoder handle has no state, and `errs`/`err_count` are not modelled.
- The encoder's self-consistency update (`encode_49bit` feeding `mbe_decodeAmbe2450Parms`, `encoder/mbeenc.cpp:516-526`) is left out. `encode_49bit` itself is modelled.
- The speech analysis (`encode_dmr_params`, the IMBE vocoder) is not part of this model. Its fields are a parameter of `OpenDmr.Encode`.
- The floating-point parts of `encode_ambe` are left out: magnitudes, logarithms, DCT, PRBA transform, prediction residual, `jl` band index and NaN behaviour. Each search gets its distances as a list of `real`.
- `AmbeLtable`, `AmbeLmprbl` and the codebooks are not part of this model. `lTable`, `bands` and `costs` are parameters.
- `powf(10, gain_db / 20)` is not modelled. The engine's gain is kept in dB.
- Allocation failure in create and reset (`calloc`, `new (std::nothrow)`) is left out. So is the handle state where `enc->enc` is null, which only such a failure produces. The engine is always present.
- destroy and `opendmr_version` only free memory or return a constant string. They are not modelled.
- The pitch walk (`encoder/mbeenc.cpp:286-300`) does not terminate for every table, so the model adds a hypothesis (`HarmonicSteps`): `AmbeLtable` grows by 0 or 1 from one pitch field to the next, over fields 0..124. The table is not part of this model. Under that hypothesis the walk never reverses and ends at the nearest index with the count.
- The two bit layouts are not related. `encode_ambe_frame` packs the fields contiguously, MSB first (`opendmr.cpp:267-275`); only `encode_49bit` scatters them. Each is modelled as written.
- The two scrambling conventions are not related either: `PRNG_TABLE[aOrig] >> 1` with `encode23127(...) >> 1` in `encode_dmr`, and `compute_prng_mask_23bit` in `encode_ambe_frame`.
- The voicing search uses `if n == 0 ... else if En < en_min` (`encoder/mbeenc.cpp:320-325`). This is the same rule as `i == 0 || err < error`, so `AmbeQuantizer.FirstMin` models both.
- Fields are `int`. `(val >> j) & 1` on a negative field is read as an arithmetic shift, which is what `Bits.Bit` computes.
- OpenDmr.Encode: the engine's predictor state is abstracted to a count of encoded frames, because its contents are computed by mbelib.
- OpenDmr.EncoderReset: the fresh engine's state is stated only as a zero frame count, for the same reason.
- FrameCodec.ConvertFrame: bit-array entries are `nat` rather than `uint8_t`. Entries above 255 cannot occur in the source.
- DmrInterleave.EncodeDmr: requires aOrig below 248, because that is the only range in which the C++ reads inside `PRNG_TABLE`; see Findings.

## Findings

| source | as written | input that shows it | evidently intended | confidence | as-written member | corrected member |
|---|---|---|---|---|---|---|
| encoder/mbeenc.cpp:588 | `PRNG_TABLE[aOrig]` indexes a table of 248 entries (lines 163-195) with a 12-bit aOrig | input bytes FF F0 00 00 00 00 00 give aOrig = 4095, far past the end of the table | a table entry for every 12-bit aOrig, 4096 entries | not executed | DmrInterleave.PrngIndexOutOfRange | DmrInterleave.EncodeDmrFullTable |
