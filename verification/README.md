# A verified model of Aften's frame encoder

Aften encodes audio to AC-3 (ATSC A/52). This project models its integer back end in Dafny and proves what it
promises. The input is the coefficients of a frame as integers below 2^24 in magnitude. The output is the bytes of the
finished frame with both checksums. Everything between is modelled: exponents, bit allocation and the search for the
SNR offset, quantisation, bit writing, CRC. Beside one frame it models rate control over whole streams and the protocol
by which several workers share the encoder.

`Encoder.ProcessFrame` runs the whole chain. Its main result: a frame is produced exactly when the position the search
settles on fits. A frame that is produced has the size its header announces, both checksums hold, and a decoder written
after A/52, which knows only the bytes, finds the header's settings and, in all six blocks, the encoder's block
switches, dither and rematrixing flags, dynamic range words, exponents, bit allocation pointers and quantised
coefficients, if and only if the two SNR codes stand for a position of the same pointers. `Encoder.BestFromStart` says,
by what is known before the accurate search, when that position is the best one that fits, `Encoder.BestFrame` gives
the exact condition, and `Encoder.MeantIsAccurate` says that every value found is as near its coefficient as its
pointer promises.

`EncodeStream.EncodeFrames` runs frames one after the other through one thread context. `EncodeStream.StreamDecodes`
and `EncodeStream.StreamLength` say of any such stream that its frames decode and how near its bits are to the bit
rate; `StreamRate.StreamKeepsRate` says the latter of a stream shared by several workers.

| file | models | of |
|---|---|---|
| Arithmetic, BitStrings | integer facts; bit strings, the language of all output specifications | |
| BitIO | the bit writer | `libaften/bitio.c` |
| Crc | CRC-16 against polynomials over GF(2) | `libaften/crc.c` |
| Tables | constant tables | `libaften/a52tab.c` |
| Exponent, ExponentSse2, FrameExponents | exponents: one channel, the SSE2 twin, a whole frame | `libaften/exponent.c`, `libaften/x86/exponent_sse2.c` |
| Masking, Excitation | spectrum, mask, pointers; what the mask is without running values | `libaften/a52.c` |
| MantissaCost, Allocation, Search, JumpRange, BitAlloc, Overshoot | cost of a frame, the search over it, the starts it succeeds from, the frame's allocation in place, a frame on which the search goes wrong | `libaften/bitalloc.c` |
| Quantize, Mantissa | quantisation, grouping, and the decoder of grouped mantissas | `libaften/a52enc.c` |
| FrameSyntax, FrameOutput, FrameDecoder | the fields of a frame, writing them, and a decoder of whole frames | `libaften/a52enc.c` |
| Encoder | one frame from coefficients to bytes | `libaften/a52enc.c` |
| RateControl, RateWrap, StreamRate | constant bit rate over runs: with integer products, with the code's 32-bit products, and over several workers | `libaften/a52enc.c` |
| EncodeStream | whole streams: the rate counters and the starting quality from frame to frame | `libaften/a52enc.c` |
| Workers | the worker protocol as a transition system | `libaften/a52enc.c` |

Code that changes arrays or fields in place is modelled by methods over arrays and classes, each proved against a
function of its input or of the old state. `dafny verify dfyconfig.toml` checks everything.

## Model

| member | source | states |
|---|---|---|
| `Encoder.ProcessFrame` | libaften/a52enc.c:1294-1348 | from coefficients to bytes: produced exactly when the search's position fits; then size = 2 * frame_size = what the header's code announces, so "data size exceeds frame size" cannot happen; both CRCs are zero; the bytes decode to what was encoded iff the SNR codes, cut to six and four bits, stand for a position of the same pointers; otherwise the buffer is untouched |
| `EncodeStream.ThreadContext.EncodeFrame` | libaften/a52enc.c:1319-1336 | the same with the context's state, constant bit rate: frame n gets the size the run of the 32-bit counters gives it and is searched from the last quality; a produced frame moves counters and quality on, a failed one leaves the frame due again |
| `EncodeStream.EncodeFrames` | libaften/a52enc.c:1294-1348 | a stream from its first frame: every frame is produced as promised, from the quality of the one before, and it ends early only at a frame whose position does not fit |
| `EncodeStream.StreamDecodes` | libaften/bitalloc.c:240-331 | all frames of a stream started in 0..1023 decode to what was encoded: with the fast search always, with the accurate one while its searches stay in range |
| `EncodeStream.StreamFindsBest` | libaften/bitalloc.c:287-328 | with the accurate search, if every frame starts where the jumps do no harm, every frame of the stream has the largest quality that fits in it, and decodes |
| `EncodeStream.StreamLength` | libaften/a52enc.c:1219-1234 | the bytes of any such stream are less than a word off the bit rate, except after n frames with n = 1792 modulo 3675 at 256 kbps and 44.1 kHz |
| `EncodeStream.StartsInRange` | libaften/a52enc.c:404-408 | a new context's quality is in 0..1023 iff it is not mono at 640 kbps, which starts at 1028 |
| `EncodeStream.InitialQualityIs` | libaften/a52enc.c:404-408 | at constant bit rate that quality is 35/24 of one channel's rate, both divisions rounded down, plus 95, plus 25 for each halving of the sample rate; otherwise the requested one |
| `EncodeStream.SilenceEncodable` | libaften/a52enc.c:1294-1348 | every accepted rate has an input that meets what encoding a frame asks |
| `Encoder.BestFrame` | libaften/bitalloc.c:240-331 | accurate search, from every start: a frame comes out iff some position in 0..1023 fits, with the largest that fits, exactly when the condition of AccurateExactly holds; jumps inside 0..1023 are enough |
| `Encoder.BestFromStart` | libaften/bitalloc.c:287-328 | accurate search: from a start that meets the condition of AccurateFinds the frame is the best one and what is produced decodes |
| `Encoder.ProducedDecodes` | libaften/a52enc.c:653-992 | either search: the quality of a produced frame is in 0..1023 iff the search passes over nothing above 1023 that fits, and then the frame decodes to exactly what the encoder meant |
| `Encoder.MeantIsAccurate` | libaften/a52enc.c:713-805 | every quantised value found in a frame is in its pointer's range and within 1/levels of its coefficient (pointers 1-5), or less than one step below it (6-15) |
| `Encoder.RunSizesRight` | libaften/a52enc.c:1219-1234 | the frame size adjust_frame_size gives any frame of any constant-rate stream meets what ProcessFrame asks of its size |
| `Encoder.WriteFrame` | libaften/a52enc.c:955-992 | fields of at most 16 * frame_size - 18 bits become a frame of 2 * frame_size bytes with both CRCs zero and the fields, padded with zeros, around the first checksum |
| `Encoder.QuantizeMantissas` | libaften/a52enc.c:807-827 | the words of all blocks are the group codes of the quantised coefficients, for the pointers the allocation chose |
| `FrameExponents.EncodeChannel` | libaften/exponent.c:191-249 | extraction and encode_exponents for one channel: every block ends with the encoded minimum of its run |
| `FrameExponents.CodedIsValid` | libaften/exponent.c:191-224 | what encode_exponents leaves meets everything the bit allocation assumes: exponents at most 24, reuse blocks equal to their predecessor |
| `FrameExponents.CodedBounds` | libaften/exponent.c:191-249 | after extraction, minima, grouping and limiting every exponent still bounds its coefficient: abs(c) < 2^(24-e) |
| `FrameExponents.GroupFrame` | libaften/exponent.c:135-189 | group codes of all blocks and channels are those of decodable exponents, and exp_bits is what the output writes for exponents |
| `FrameExponents.TableStrategiesValid` | libaften/a52tab.c:245-282 | every row of the strategy table is one that the exponent coder and the allocation accept |
| `FrameExponents.TableRule` | libaften/a52tab.c:245-282 | all 32 rows by one rule: the bits of the row's number say which blocks send exponents, and the strategy follows from how many blocks they serve |
| `FrameDecoder.FrameRoundTrip` | libaften/a52enc.c:653-992 | a finished frame, read bit by bit with nothing known but the bytes, gives back the header's settings, copyright 0 and original 1 among them, and, for all six blocks, switches, dither, gains, rematrixing flags, exponents, pointers and mantissa values, iff every block has the same pointers at the position modulo 1024 |
| `FrameOutput.FrameTotal` | libaften/bitalloc.c:162-234 | bit accounting: header and blocks emit frame_bits + exp_bits + mant_bits - 18 bits, less extra information counted but not sent at reduced rates |
| `FrameOutput.FrameFits` | libaften/a52enc.c:955-970 | an allocation that fits leaves at most 16 * frame_size - 18 bits of data |
| `FrameOutput.FrameWriter.OutputFrameHeader` | libaften/a52enc.c:653-711 | writes exactly the header's fields for every channel mode and syntax |
| `FrameOutput.FrameWriter.OutputAudioBlocks` | libaften/a52enc.c:830-952 | writes exactly the fields of all six blocks, mantissas included |
| `FrameOutput.FrameWriter.OutputFrameEnd` | libaften/a52enc.c:954-992 | -1 iff the data exceeds the frame; otherwise padding and two checksums: CRC zero over the first five eighths and over the whole frame |
| `FrameOutput.FiveEighthsIs` | libaften/a52enc.c:975 | the part the first checksum covers is five eighths of the frame, exactly so for sizes divisible by 8, and at most 11/8 words less for others |
| `FrameOutput.BlockMantissaTotal` | libaften/bitalloc.c:53-91 | the mantissa bits a block emits are those compute_mantissa_size counted |
| `FrameSyntax.BlockSideTotal` | libaften/bitalloc.c:183-225 | side information of a block is exactly as large as count_frame_bits and group_exponents say |
| `FrameSyntax.HeaderTotal` | libaften/bitalloc.c:173-181 | the header is 65 bits, the mode's extra bits and 14 per extra-information block, less what a reduced rate does not send |
| `Search.AccurateExactly` | libaften/bitalloc.c:287-328 | from every start, the accurate search ends at the largest fitting position of 0..1023 and fails iff none fits, if and only if its jump target meets the stated condition; every target in 0..1023 does |
| `Search.JumpsAre` | libaften/bitalloc.c:287-301 | the three jumps by what they do: one position down for every 16 bits and channel missing, one up for every 24 left, one down for every 40 missing, each only past its threshold |
| `JumpRange.AccurateFinds` | libaften/bitalloc.c:287-328 | the search is optimal from every start in 0..1023 that has at most 400 bits left or missing; with more left, if start + left / (24 * channels) is at most 1023; with more missing, if the jumps down end at -47 or above and the jump back up at 1023 or below, both by divisions of what is missing and available |
| `JumpRange.JumpsLand` | libaften/bitalloc.c:287-301 | from such a start the jumps end in -47..1023 |
| `JumpRange.CostGrows` | libaften/bitalloc.c:117-160 | k positions further, no frame costs more than 6 + 6 * ((k + 31) / 32) bits more per coefficient (6 more from 273 positions on), and 69 |
| `JumpRange.CostLow` | libaften/bitalloc.c:117-160 | positions -47 to 16 cost nothing |
| `Search.FastSearch` | libaften/bitalloc.c:261-286 | from every start from 0 on, the fast search stays on its grid of 16, never goes below a fitting start, and fails iff no grid position up to the start fits; it succeeds inside 0..1023 iff no grid position between 1024 and the start fits |
| `Search.FastClimbs` | libaften/bitalloc.c:266-273 | with bits left at the start, it climbs over grid positions with bits left until the next has none, or the one after that lies above 1023 |
| `Search.FastFalls` | libaften/bitalloc.c:274-280 | with none left, it falls to the first grid position that fits |
| `Overshoot.SearchOvershoots` | libaften/bitalloc.c:287-328 | a frame on which a jump leaves the range: 1023 fits, yet the search succeeds above 1023, the coarse code does not fit its field, and a decoder uses a position 1024 lower |
| `Overshoot.ToneTwice` | libaften/bitalloc.c:254-328 | a stream at 320 kbps that starts with this frame twice reaches that search: the first gets 1023, the second a position above it |
| `Overshoot.ToneGarbled` | libaften/a52enc.c:917 | at the position a decoder takes it for, the frame has other pointers, so by FrameRoundTrip it does not decode |
| `Overshoot.ToneRoom` | libaften/bitalloc.c:245-247 | the bits that frame has are those a mono frame of 640 words (320 kbps at 48 kHz) leaves for mantissas |
| `Overshoot.ToneSendable` | libaften/exponent.c:135-189 | its exponents are decodable as they stand, and encode_exp_blk_ch leaves them unchanged |
| `Allocation.CostAlmostMonotone` | libaften/bitalloc.c:117-160 | for positions s <= t of any frame, bit_alloc(s) <= bit_alloc(t) + 66 |
| `Allocation.CostZero` | libaften/bitalloc.c:117-160 | position 0 costs no mantissa bits, so it fits whenever anything does |
| `MantissaCost.BlockBitsAlmostMonotone` | libaften/bitalloc.c:53-91 | raising any pointers of a block lowers its cost by at most 11 bits |
| `MantissaCost.GroupingOverhead` | libaften/bitalloc.c:79-91 | whole groups cost at most 69/6 bits per block more than 5/3, 7/3 and 7/2 bits per mantissa |
| `BitAlloc.Allocator.StartBitAllocation` | libaften/bitalloc.c:372-408 | parameters are those of the codes, fast gain codes those of each block's run, flags set exactly where a code changes, fixed bits counted |
| `BitAlloc.ParamsAtRate` | libaften/bitalloc.c:372-390 | at a reduced rate both decays lose one bit per halving, rounded down, and no other parameter changes |
| `BitAlloc.Allocator.BitAllocPrepare` | libaften/bitalloc.c:93-115 | spectra and masks of all blocks with new exponents are those of section 7.2.2 of ATSC A/52 |
| `BitAlloc.Allocator.BitAllocate` | libaften/bitalloc.c:117-160 | pointers of every block, copied or computed, are those of its own exponents; the bits returned are their cost |
| `BitAlloc.Allocator.CbrBitAllocation` | libaften/bitalloc.c:236-331 | the position is the configured search's, success iff it fits, frame fields and starting point stored only then |
| `BitAlloc.Allocator.VbrBitAllocation` | libaften/bitalloc.c:333-370 | the smallest frame size within the limit that holds the requested quality, or the limit; then the search in it |
| `BitAlloc.Allocator.ComputeBitAllocation` | libaften/bitalloc.c:492-513 | both modes: success iff the search's position fits; then codes and pointers are that position's and the size code is right |
| `BitAlloc.Allocator.DecoderAgrees` | libaften/bitalloc.c:134-157 | every pointer left, reused ones included, is what a decoder computes from the block's exponents, the gain code last sent, and the two SNR codes |
| `BitAlloc.VbrQualityKept` | libaften/bitalloc.c:333-370 | when the requested quality fits the chosen frame, the result is never below it with the fast search, and with the accurate one iff the climb gets back from a jump below 0 |
| `BitAlloc.FoundInRange` | libaften/bitalloc.c:254-328 | either search, from every start the encoder can set: a position that is found fits both SNR codes iff the search passes over nothing above 1023 that fits |
| `BitAlloc.StreamStaysInRange` | libaften/bitalloc.c:254-328 | over any number of frames started in 0..1023: all starting qualities stay there iff all searches do, and with the fast search they do |
| `Masking.BapMonotone` | libaften/a52.c:163-199 | a pointer never falls when the SNR offset rises, masking by 0x1FE0 included |
| `Masking.LevelDropsLowBits` | libaften/a52.c:171-199 | for masks the encoder makes and positions above 0 the value masked by 0x1FE0 is below 8192: only low bits are lost |
| `Masking.BandPsdRange` | libaften/a52.c:53-75 | with exponents 0..24 band powers stay in 0..4544 |
| `Excitation.LogAddLaws` | libaften/a52.c:68-72 | addition of powers is symmetric, is the louder one plus the table value of half their distance, 64 more for equal powers, nothing more from a distance of 420 on |
| `Masking.MaskRange` | libaften/a52.c:77-161 | excitation and mask fit 16 bits; the mask is at least the hearing threshold and at most fgain + 384 below the band power |
| `Masking.LeakEnvelope` | libaften/a52.c:88-144 | the running leaks lie above every earlier band's power less gain and decay |
| `Masking.LeakReached` | libaften/a52.c:88-144 | and reach one of them: each leak is that maximum |
| `Excitation.LowCompIs` | libaften/a52.c:34-50 | low frequency compensation: 0 before the first band that rises by 256 to the next; after the last such band 384 (below band 7) or 320, less 64 for each falling band and 128 for each band from 20 on, never below 0 |
| `Excitation.BeginIs` | libaften/a52.c:96-113 | the leaks begin after the first band from 2 on that is not louder than the next, at band 7 at the latest |
| `Excitation.MaskAtIs` | libaften/a52.c:88-161 | the mask of every band: the larger of hearing threshold and excitation lifted by a quarter of the distance below the knee; the excitation is power less gain less compensation below the first rise, and the greatest decayed power since then, fast (compensated below band 22) or slow |
| `Masking.CalcPsd` | libaften/a52.c:53-75 | fills spectrum and band powers with their specification |
| `Masking.CalcMask` | libaften/a52.c:77-161 | the loops with running leaks, compensation and early exit compute the per-band formula |
| `Masking.CalcBap` | libaften/a52.c:171-199 | the two-at-a-time loop computes the per-coefficient pointer formula |
| `Masking.CommonInit` | libaften/a52.c:203-216 | both tables hold the band starts and the bands of bins that the band sizes give |
| `Exponent.EncodeGreatest` | libaften/exponent.c:260-312 | encode_exp_blk_ch picks the greatest decodable exponents below its input: equal in a group, first at most 15, slopes within 2 |
| `Exponent.EncodeClosedForm` | libaften/exponent.c:290-295 | each exponent is the minimum over groups j of value(j) + 2 * distance |
| `Exponent.EncodeExpBlkCh` | libaften/exponent.c:260-312 | the in-place minima, two limiting passes and in-place expansion compute that encoding, untouched beyond the last group |
| `Exponent.EncodeExponents` | libaften/exponent.c:191-224 | every block of a channel gets the encoded minimum over its run, in place |
| `Exponent.RunGreatest` | libaften/exponent.c:191-224 | what is sent for a run of blocks is the greatest row a decoder can produce that stays below every block of the run |
| `Exponent.RunMinReached` | libaften/exponent.c:252-257 | the minimum over a run is one that some block of it has |
| `Exponent.GroupsCover` | libaften/exponent.c:356-366 | for every strategy and bandwidth the groups reach all coefficients and stay inside 256 exponents |
| `Exponent.NumGroupsStandard` | libaften/exponent.c:356-366 | the group counts are those of section 5.4.3 of ATSC A/52 for every bandwidth |
| `Exponent.GroupExponents` | libaften/exponent.c:139-189 | codes in 0..124, first exponent at most 15, 4 + 7 bits per group |
| `Exponent.ExponentRoundTrip` | libaften/exponent.c:139-224 | encode, pack, decode after section 7.1.3 of ATSC A/52 returns the encoded exponents of all bins |
| `Exponent.CoefficientsStayBounded` | libaften/exponent.c:191-312 | exponents that started as those of coefficients bound them to the end |
| `Exponent.ExtractExponents` | libaften/exponent.c:229-249 | each exponent is the number of leading zeros of the coefficient after the point |
| `Exponent.Log2i` | libaften/a52.h:52-67 | 2^n <= v < 2^(n+1) |
| `ExponentSse2.EncodeExpBlkChSse2` | libaften/x86/exponent_sse2.c:52-268 | the vector form leaves exactly the scalar encoding, for every strategy and count with a group |
| `ExponentSse2.ExponentMinSse2` | libaften/x86/exponent_sse2.c:36-49 | vector minimum with scalar tail equals the scalar minimum, in place |
| `ExponentSse2.SumSquareErrorSse2` | libaften/x86/exponent_sse2.c:270-313 | the vector sum of squared differences equals the scalar one |
| `Quantize.QuantizedIsAccurate` | libaften/a52enc.c:713-805 | a coefficient below 2^(24-e) quantises into its pointer's range and near itself |
| `Quantize.SymQuantNearest` | libaften/a52enc.c:713-715 | no other level of a symmetric quantiser is nearer |
| `Quantize.AsymQuantError` | libaften/a52enc.c:717-733 | the clip never fires and the error is non-negative and below one step |
| `Quantize.FrameQuantization` | libaften/exponent.c:229-312 | both hold for coefficients whose exponents went through extraction, run minima, grouping and limiting |
| `Mantissa.MantissaRoundTrip` | libaften/a52enc.c:735-827 | for any pointers and in-range values, the decoder of section 7.3.5 of ATSC A/52 recovers every value from the emitted bits, across channels and with incomplete groups |
| `Mantissa.QuantizeBlock` | libaften/a52enc.c:807-827 | words built through pointers into earlier channels are the codes of the whole block |
| `Mantissa.CodeAtRange` | libaften/a52enc.c:744-801 | no group code equals the marker 128, and every word fits its field |
| `Mantissa.EmittedBits` | libaften/bitalloc.c:57-91 | the bits emitted for any mantissas are what the counting functions say |
| `BitIO.BitWriter.constructor` | libaften/bitio.c:30-43 | an empty writer, or none for a negative length |
| `BitIO.BitWriter.WriteBits` | libaften/bitio.c:58-82 | appends the low bits of the value, or sets eof and keeps the contents; stale register bits never show |
| `BitIO.BitWriter.WriteBit` | libaften/bitio.c:84-104 | appends one bit likewise |
| `BitIO.BitWriter.FlushBits` | libaften/bitio.c:45-56 | pads with zeros to the next byte and stores everything |
| `BitIO.BitWriter.BitCount` | libaften/bitio.c:106-110 | the length of the contents |
| `Crc.InitTable` | libaften/crc.c:47-63 | the table is the byte-swapped register table of the generator |
| `Crc.CalcCrc16` | libaften/crc.c:73-86 | for every byte string, the remainder of M(x) * x^16 modulo x^16 + x^15 + x^2 + 1 |
| `Crc.CrcUnique` | libaften/crc.c:73-86 | and that remainder is the only 16-bit value that is a CRC of the string |
| `Crc.MulPoly` | libaften/crc.c:88-101 | the product modulo the generator |
| `Crc.PowPoly` | libaften/crc.c:103-115 | x^(-n) modulo the generator |
| `Crc.Crc16Zero` | libaften/crc.c:117-130 | the front word whose shift by the message length is the given CRC |
| `Crc.FrontCrc` | libaften/a52enc.c:975-983 | data prefixed with it has CRC 0, for every content and length |
| `Crc.BackCrc` | libaften/a52enc.c:986-989 | data followed by its own CRC has CRC 0 |
| `Crc.ZeroPrefix` | libaften/a52enc.c:975-989 | a part with CRC 0 does not change the CRC of what follows, so the whole frame has CRC 0 |
| `RateControl.RunIsExact` | libaften/a52enc.c:1228-1233 | with the code's 32-bit products a stream follows that run up to frame n iff no multiple of 2^32 separates the products of a decision before n |
| `RateWrap.RightExactly` | libaften/a52enc.c:1228-1233 | the wrapped comparison is right for every rate and frame number, except for frames n = 1791 modulo 3675 at 256 kbps and 44.1 kHz |
| `RateWrap.ExactExactly` | libaften/a52enc.c:1219-1234 | the counters are those of the run with integer products for every rate and frame number, except for the two frames after such a decision |
| `RateWrap.FirstWrongDecision` | libaften/a52enc.c:1228-1233 | the first of them: the 1792nd frame, padded although the stream is ahead of its rate |
| `RateWrap.WrappedDrift` | libaften/a52enc.c:1219-1234 | with the code's arithmetic, over any number of frames at every rate, the drift is less than one word either way, except after 1792 modulo 3675 frames at 256 kbps and 44.1 kHz, where it is 1.2 words |
| `RateControl.NeverPadded` | libaften/a52enc.c:622-627 | at 48 and 32 kHz and their half rates no frame is padded and nothing drifts, wrapping or not |
| `RateControl.FrameSizeIsTabulated` | libaften/a52enc.c:659 | every frame of every run is as long as the table says for the code in its header |
| `RateWrap.RateCounter.NextFrame` | libaften/a52enc.c:1219-1234 | the loop, the 32-bit products and the 32-bit counters follow the run for every frame, and the frame size is the table's for the code written |
| `StreamRate.StreamIsSum` | libaften/a52enc.c:1423-1481 | the drift of a stream shared by n workers is the sum of theirs: N mod n of them have made one frame more than the others |
| `StreamRate.WordPerWorker` | libaften/a52enc.c:1219-1234 | it is less than a word for each worker after every number of frames, iff the rate is not 256 kbps at 44.1 kHz |
| `StreamRate.StreamKeepsRate` | libaften/a52enc.c:1219-1234 | it is less than one word after every number of frames iff the rate is of the 48 or 32 kHz families, or there is one worker and the rate is not 256 kbps at 44.1 kHz, or there are two and the rate is 48 kbps or half or a quarter of it |
| `StreamRate.FourWorkers` | libaften/a52enc.c:1219-1234 | an input on which it is not: four workers at 256 kbps and 44.1 kHz owe 1.1 words after the fourth frame |
| `Workers.EveryRun` | libaften/a52enc.c:1423-1481 | in every interleaving: copies in submission order, worker i mod n has submission i, windows equal the sequential encoder's, call i returns frame i - n |
| `Workers.SomeoneHoldsTheTurn` | libaften/a52enc.c:1007-1022 | while a submission waits to be copied, the turn is held by the worker it was given to |
| `Workers.Progress` | libaften/a52enc.c:1364-1420 | unless all is idle some step is enabled, and each brings the end nearer |
| `Workers.Drains` | libaften/a52enc.c:1364-1420 | every reachable state can finish: all submissions copied and encoded |
| `Workers.AllHandedIn` | libaften/a52enc.c:1423-1481 | from every reachable state, any further blocks can all be handed in, copied and encoded |
| `Workers.AllInFlight` | libaften/a52enc.c:1423-1481 | as many blocks as there are workers can be handed in before any of them is copied |
| `Workers.CopySamples` | libaften/a52enc.c:1063-1072 | six overlapped windows and the kept tail are slices of the kept samples and the input |

## Findings

- Rate control (libaften/a52enc.c:1232) multiplies in 32 bits. At 256 kbps and 44.1 kHz, and at no other rate, the
  comparison is wrong once in 3675 frames, first for the 1792nd frame of a stream, about 62 seconds in: a padding word
  is added although the stream is ahead of its rate (`RateWrap.RightExactly`). The stream is then 1.2 words ahead, and
  two frames later the error is made up for (`RateWrap.ExactExactly`).
- Each worker has its own rate counters (libaften/a52enc.c:1219-1234). At 44.1 kHz and its half rates a stream of
  several workers therefore drifts by more than a word, except for two workers at 48 kbps or its half rates
  (`StreamRate.StreamKeepsRate`); four workers at 256 kbps do with their fourth frame (`StreamRate.FourWorkers`). It
  never drifts by as much as a word for each worker, but for the case above (`StreamRate.WordPerWorker`).
- The jumps of the accurate search (libaften/bitalloc.c:288-300) are not limited to 0..1023, and a search that turns
  above 1023 may end there and report success. `Search.AccurateExactly` gives the exact condition, and
  `Overshoot.SearchOvershoots` a frame of an ordinary stream: mono, 48 kHz, 320 kbps, bandwidth code 17, a full-scale
  low tone in silence. Twice at the start of a stream is enough (`Overshoot.ToneTwice`). Its coarse SNR code needs seven
  bits, so a decoder computes the pointers of another position and does not find the frame (`Overshoot.ToneGarbled`).
- The quality a stream of mono at 640 kbps starts with is 1028 (libaften/a52enc.c:408, `EncodeStream.StartsInRange`).
  The fast search keeps that position if it fits, and reports success with a coarse code of seven bits; from every
  start in 0..1023 it stays there (`Search.FastSearch`).
- At reduced rates (libaften/a52enc.c:682-711, libaften/bitalloc.c:178-181) the 14 bits of each extra-information block
  are counted but not sent, so such frames are produced with that many bits unused (`FrameOutput.FrameTotal`).

## Left out

- WriteBits: not for 32 bits at once, where the source shifts by 32; Aften never writes such a field.
- FlushBits: the shift by 32 of an empty register is read as giving 0, and the register must fit the buffer, beyond
  whose end the source would write.
- OutputFrameEnd: not for data beyond the 3840 bytes of the buffer, where the bit writer's end-of-buffer flag is set;
  an allocation that fits never gets there (FrameFits).
- EncodeExpBlkChSse2: needs at least one group, as every coefficient count of the encoder has.
- CalcBap: stops at the last band that holds coefficients, where the source makes one empty pass more, which for large
  counts indexes one past the band table.
- CopySamples: filters and transient samples are not part of it, only windows and kept samples.
- EveryRun: more than one worker, no shutdown and no abort; a stream shorter than the number of workers skips a signal.
- EncodeFrames: constant bit rate and one thread context; ProcessFrame covers variable bit rate, where nothing but the
  tables passes from frame to frame.
- Variable bandwidth (vbw_bit_allocation): works on floating-point estimates; the bandwidth code is any value.
- The choice of exponent strategies (compute_expstr_ch): works on scratch exponents that are not always filled; any row
  of the strategy table is allowed per channel.
- Floating point: transform, windows, filters, transient detection, rematrixing, dynamic range; their results are
  inputs.
- Spurious wake-ups, Windows events and the abort path of the worker protocol.
- Delta bit allocation and coupling: the encoder never uses them.
- Constant tables (hearing threshold, addition of powers, pointers, decays, gains): the entries are those of
  libaften/a52tab.c; only what the proofs use of them is stated.
- Aliasing of per-block tables: spectra, masks, pointers, exponents and group codes of a frame are sequences of rows,
  each row filled in an array of its own; only in-place work within a row, or a run of rows, is on arrays.
- The MMX twins, which make the same claims as SSE2, and AltiVec.
- Readers, command line, bindings, transcoding, channel remapping.
