# franken_whisper kernels: models and proofs

franken_whisper is a speech-to-text engine whose probes and benches carry self-contained
replicas of its hot code: quantised integer kernels, layout rewrites, byte formats and the
statistics that decide whether a change is kept. Each replica claims to equal something
simpler, usually byte for byte. This project models those replicas in Dafny and proves the
claims for all inputs. `dafny verify dfyconfig.toml` checks everything.

## What is proved

* **Integer GEMM** (`Simd`, `MaddubsKernels`, `Grid`, `MaddubsGemm`). Every intrinsic is a
  lane function with its real saturation or wrap-around. The dot kernels return the i32 of the
  plain dot product for every length, wrapping included; saturation and i16 overflow are ruled
  out with their exact conditions. Six loop nests, from the row loop to the L2 weight panels
  with register tiles, leave the same buffer and return the log of their stores, which holds
  each of the m·n cells once.
* **No overflow** (`Exactness`). The mass of a register is the sum of its lanes' magnitudes;
  additions never create mass. For every kernel a recursive predicate over its registers says
  that no lane addition, fold, horizontal-sum node or tail step leaves i32; the kernel's `exact`
  result equals it, and it holds while 255·b·k (b·b·k for int8) is below 2^31.
* **Two-pass decomposition** (`TwoPass`) and **int8 dots** (`DotI8`): fast forms against the
  plain dot, with the tails the code has and the one it skips.
* **Vector quantisers** (`Binary32`, `QuantiseSimd`) in f32 with rounding to nearest even: the
  exact conditions under which the two vector rows equal the scalar row byte for byte.
* **Quantisers** (`Quantise`, `ErrorFeedback`) over the reals: scales, levels, and the error of a
  dot product under error feedback by summation by parts over the carried residual, with a
  column that separates the two modes.
* **End to end** (`Pipeline`): quantise, multiply with any loop nest, and bound the distance of
  every cell to the real matrix product; the same for the error-feedback probe's dots.
* **Layouts** (`MatMuls`, `Conv`, `Layout`): im2col with a transposed weight is convolution,
  the fused head-major write is write-then-gather, column panels scatter to the full product.
  Arithmetic stays uninterpreted, so these equalities hold bit for bit.
* **Byte formats** (`SegmentOracle`, `Riff`, `HashingWriter`): a decodable segment encoding, two
  RIFF/WAVE walkers against a chunk writer (padding rule of chapter 2 of the IBM/Microsoft
  Multimedia Programming Interface and Data Specifications 1.0) and, with the exact condition,
  against each other, and a hashing writer whose
  digest equals that of rereading the file.
* **Scans and statistics** (`VocabScan`, `Bootstrap`): one scan against many, and the bootstrap
  interval with its xorshift generator.

## How to read the models

* Machine integers are unbounded integers with explicit `Wrap16`, `Wrap32` and saturation
  (`Integers`). Scalar i32 additions wrap, as in a release build. Where nothing wraps a debug
  build gives the same result: each kernel's `exact` flag, `OffsetExact`, `FinishExact` and
  `CorrectionExact` say when that is. A kernel collects `exact` from its operations as they are
  performed and ensures that it equals the kernel's predicate (`DotMaddubsExact`, `TileExact`,
  `DotAvx2Exact` and so on), which follows the same registers.
* Some predicates describe their value under a key (`Integers.Open`, `Integers.On`) that a proof
  must name to unfold them. The key is always true; it only keeps registers folded in proofs that
  pass them along.
* SIMD registers are sequences of lanes; output buffers are arrays.
* Parallel chunks are a loop that takes any pending task, so results hold for every order. A
  chunk of zero elements is refused by the chunking primitive: that is where `n > 0`, `k > 0` and
  the like come from. `gemm_maddubs_l2` also divides by `k`.
* The final `as f32 * sa * sw` is one uninterpreted function of the i32 and the two scales in
  `MaddubsGemm`, and real multiplication in `Pipeline`. The f32 product `x * inv` is one
  uninterpreted function in `QuantiseSimd`: the same instruction in every form.
* An f32 is a NaN, an infinity or a whole multiple of 2^-149 with a 24-bit significand
  (`Binary32`); 0.49999997 stands for the largest f32 below one half, 1/2 - 2^-25.
* Where a result is stated through named cells (`Conv`, `Layout`, `MaddubsGemm`, `TwoPass`), a
  lemma beside it gives the same result in plain addresses, one entry at a time.
* Lengths the probes fix (`K = N = 1280`, `M = 1500`, `T`, `NH`, `DH`, 20000 resamples) are
  parameters; only the divisibility the loops rely on is required.
* A panic is a value (`None`, `Panic`) with its exact condition. The sink and the reader of
  `HashingWriter` follow a script with one entry a call.
* Shared helpers: `Grid` (row-major cells, rows, bands, tasks, store logs), `Dots` (exact dots), `MatMuls`, `Sorting`, `Options`.

Where code and comments disagree the code is followed. The comment above `quant_row_u8_avx2`
promises byte identity with the scalar form; in f32 adding 0.5 to 0.49999997 gives 1, so the
promise fails there and on NaN, and nowhere else. The same promise above the signed
`quant_row_avx2` fails on NaN alone. `dot_i8_avx2` reads `x` up to the length of `w`, so `x`
must be as long. The two RIFF readers take different chunks from a file with a second data
chunk or a late format chunk.

## Model

| member | source | states |
|---|---|---|
| Simd.WidenSum | examples/encoder_maddubs_i7_gemm_probe.rs:339-347 | `vpmaddwd` with ones turns 16 i16 lanes into 8 i32 lanes with the same total, for every lane value |
| Simd.HsumStoredSum | examples/encoder_maddubs_i7_gemm_probe.rs:361-363 | storing a register and summing its lanes in wrapping i32 gives the true lane total modulo 2^32 |
| Simd.HsumShuffledSum | examples/attn_out_2pass_probe.rs:150-159 | the extract-add-shuffle tree gives the true lane total modulo 2^32: no lane is dropped or counted twice |
| Simd.HsumsAgree | examples/attn_out_2pass_probe.rs:150-159 | the shuffle tree and the store-and-sum form of other kernels leave the same i32 for every register |
| Simd.AddSum16 | examples/encoder_maddubs_i7_gemm_probe.rs:257-260 | i16 lane accumulation keeps the exact total as long as each lane sum fits i16 |
| Simd.Extremes | examples/encoder_maddubs_i7_gemm_probe.rs:19-22 | `vpmaddubsw` saturates at 32767 and -32768, `vpmaddwd` and the additions wrap at their limits, the shuffle picks the lanes its immediate names |
| Dots.DotIsSum | examples/encoder_maddubs_i7_gemm_probe.rs:200-206 | the reference dot is the plain sum of the entry-wise products |
| Exactness.AddMass | examples/encoder_maddubs_i7_gemm_probe.rs:349-356 | a wrapping lane addition of registers whose masses add up to less than 2^31 wraps in no lane and creates no mass |
| Exactness.AddWeighs | examples/encoder_maddubs_i7_gemm_probe.rs:349-356 | hence a register's weight grows by at most the weight of what is added, without a wrap, while the sum stays below 2^31 |
| Exactness.AddLanes | examples/encoder_maddubs_i7_gemm_probe.rs:349-356 | one lane addition: the wrapped sum, and a flag that says no lane wrapped |
| Exactness.FoldFour | examples/encoder_maddubs_i7_gemm_probe.rs:356 | folding four accumulators keeps their combined total; the flag says that none of the three additions wrapped |
| Exactness.FoldFits | examples/encoder_maddubs_i7_gemm_probe.rs:356 | while the four weights add up to less than 2^31 none of them does |
| Exactness.StoredWeighs | examples/encoder_maddubs_i7_gemm_probe.rs:361-363 | no partial sum of the stored lanes leaves i32 while the register weighs less than 2^31 |
| Exactness.ShuffledWeighs | examples/dot_i8_probe.rs:78-83 | no node of the shuffle tree that reaches the result leaves i32 while the register weighs less than 2^31 |
| Exactness.ScalarLoop | examples/encoder_maddubs_i7_gemm_probe.rs:364-367 | a scalar tail from any entry leaves the congruent i32; the flag is exactly that no product and no sum of it left i32 |
| Exactness.TailFits | examples/encoder_maddubs_i7_gemm_probe.rs:364-367 | within the budget a scalar tail overflows nowhere |
| MaddubsKernels.NoSaturationIff | examples/encoder_maddubs_i7_gemm_probe.rs:19-22 | for all activations and weights within b, `vpmaddubsw` pair sums never saturate if and only if b is at most 64 |
| MaddubsKernels.Chunk16Sum | examples/encoder_maddubs_i7_gemm_probe.rs:248-253 | the 16 saturated lanes of a 32-byte chunk add up to exactly that slice of the dot product |
| MaddubsKernels.Chunk32Sum | examples/encoder_maddubs_i7_gemm_probe.rs:339-347 | the widened chunk adds up to exactly that slice of the dot product |
| MaddubsKernels.AddChunk | examples/encoder_maddubs_i7_gemm_probe.rs:349-360 | one accumulation moves the register total by the slice of the dot product it covers, modulo 2^32; the flag is exactly that no lane wrapped |
| MaddubsKernels.FinishChunks | examples/encoder_maddubs_i7_gemm_probe.rs:357-368 | single 32-wide chunks, store-and-sum and scalar tail complete any partial register to the reference i32, from any offset; the flag is exactly that no lane addition, partial sum or tail step left i32 |
| MaddubsKernels.RunFits | examples/encoder_maddubs_i7_gemm_probe.rs:357-368 | that run overflows nowhere from any register within the budget for 255·b per entry |
| MaddubsKernels.DotMaddubs | examples/encoder_maddubs_i7_gemm_probe.rs:325-370 | the four-accumulator kernel returns the i32 of the plain dot product for every length k, even where i32 wraps; `exact` holds if and only if every lane addition, fold, partial sum and tail step it performs stays in i32, which it does while 255·b·k < 2^31 |
| MaddubsKernels.DotMaddubsFits | examples/encoder_maddubs_i7_gemm_probe.rs:325-370 | step by step over the kernel's registers, nothing overflows while 255·b·k < 2^31, and the i32 is the mathematical dot |
| MaddubsKernels.DelayedWideningIff | examples/encoder_maddubs_i7_gemm_probe.rs:235-239 | for all u8 activations and weights within b, saturated pair sums of f chunks added in wrapping i16 keep their share of the dot if and only if 510·b·f fits i16; four fills of 5-bit weights do |
| MaddubsKernels.Fill | examples/encoder_maddubs_i7_gemm_probe.rs:257-260 | one more i16 fill stays within 7650 times the fill count and adds exactly its chunk |
| MaddubsKernels.WidenAll | examples/encoder_maddubs_i7_gemm_probe.rs:262-274 | widening the four i16 registers moves their totals unchanged into the i32 registers |
| MaddubsKernels.DotMaddubsI5d | examples/encoder_maddubs_i7_gemm_probe.rs:241-293 | delayed widening with fills counter, partial fold, 32-wide tail and scalar tail returns the i32 of the plain dot for every k; `exact` holds if and only if no widening, fold, partial sum or tail step leaves i32, which is so while 3825·k < 2^31 |
| MaddubsKernels.DotMaddubsI5dFits | examples/encoder_maddubs_i7_gemm_probe.rs:241-293 | over its i16 and i32 registers and fill count, the delayed kernel overflows nowhere while 3825·k < 2^31 |
| MaddubsKernels.ScalarTail | examples/encoder_maddubs_i7_gemm_probe.rs:492-499 | the shared scalar tail of a tile finishes every row of any tile height to the reference i32 |
| MaddubsKernels.DotMaddubsM4 | examples/encoder_maddubs_i7_gemm_probe.rs:432-501 | slot j of the four-row kernel is the reference i32 of row j, for every k; `exact` holds if and only if no row overflows anywhere, which is so while 255·b·k < 2^31 |
| MaddubsKernels.DotMaddubsM8 | examples/encoder_maddubs_i7_gemm_probe.rs:560-610 | slot i of the eight-row kernel is the reference i32 of row i, for every k; `exact` as for four rows |
| MaddubsKernels.DotMaddubsM4n2 | examples/encoder_maddubs_i7_gemm_probe.rs:617-664 | slots 0..3 are the four rows against the first weight row and 4..7 against the second, each the reference i32; `exact` holds if and only if no row overflows against either |
| MaddubsKernels.TileFits | examples/encoder_maddubs_i7_gemm_probe.rs:432-664 | no row of a tile of any height overflows anywhere while 255·b·k < 2^31, and its i32s are the mathematical dots |
| MaddubsKernels.DotExact | examples/encoder_maddubs_i7_gemm_probe.rs:200-206 | the i32 equals the mathematical dot, and no prefix of the reference sum leaves i32, while 255·b·k < 2^31 |
| Grid.OnceComplete | examples/encoder_maddubs_i7_gemm_probe.rs:797-868 | a log without repeats over exactly the cells of an m by n grid has m·n entries, one a cell |
| Grid.StoreCell | examples/encoder_maddubs_i7_gemm_probe.rs:418-420 | one store: the cell was not stored before, its entry joins the log, every other cell is untouched |
| MaddubsGemm.TasksFitThreads | examples/encoder_maddubs_i7_gemm_probe.rs:791-796 | L2 tasks hold whole blocks of four rows and never outnumber the threads, for every m and thread count |
| MaddubsGemm.SingleRow | examples/encoder_maddubs_i7_gemm_probe.rs:410-422 | one activation row against a range of weight rows stores each of those cells once, with the finished reference dot |
| MaddubsGemm.RowTail | examples/encoder_maddubs_i7_gemm_probe.rs:541-551 | a short block stores exactly the cells of its rows, each once |
| MaddubsGemm.StoreTile | examples/encoder_maddubs_i7_gemm_probe.rs:739-743 | the tile slots land in the right row and column: eight cells, each once, none outside |
| MaddubsGemm.BandM4 | examples/encoder_maddubs_i7_gemm_probe.rs:517-552 | a full or short four-row block stores exactly its band, each cell once |
| MaddubsGemm.BandM8 | examples/encoder_maddubs_i7_gemm_probe.rs:677-704 | a full or short eight-row block stores exactly its band, each cell once |
| MaddubsGemm.BandM4N2 | examples/encoder_maddubs_i7_gemm_probe.rs:720-769 | a four-row block with column pairs and an odd last column stores exactly its band, each cell once |
| MaddubsGemm.PanelQuad | examples/encoder_maddubs_i7_gemm_probe.rs:804-850 | four rows against one weight panel, pairs then the odd column, store exactly that rectangle once |
| MaddubsGemm.BandL2 | examples/encoder_maddubs_i7_gemm_probe.rs:797-868 | weight panels outside and rows inside: an L2 task stores exactly its band, for every panel and row tail; its log repeats no cell |
| MaddubsGemm.RunBands | examples/encoder_maddubs_i7_gemm_probe.rs:795-869 | the bands run in any order, the finished buffer is the naive one and the log of stores holds each of the m·n cells once |
| MaddubsGemm.Run | examples/encoder_maddubs_i7_gemm_probe.rs:399-870 | all six loop nests, for every shape, thread count and task order, leave in every cell the finished naive dot of its rows, with m·n stores and no cell stored twice |
| MaddubsGemm.CellSpelled | examples/encoder_maddubs_i7_gemm_probe.rs:399-425 | in plain addresses: entry r·n + o of the buffer every loop nest leaves is the scale function of the wrapped sum of qa[r·k + x]·qw[o·k + x] less the wrapped 128·wsum[o], sa[r] and sw[o], in that order |
| MaddubsGemm.BothBlockings | examples/encoder_maddubs_i7_gemm_probe.rs:996-1058 | any two loop nests with any thread counts give buffers equal bit for bit |
| MaddubsGemm.SignOffset | examples/encoder_maddubs_i7_gemm_probe.rs:418-420 | subtracting 128 times the weight sum turns the u8 dot into the dot of the centred activations, exactly |
| MaddubsGemm.WrappedDifference | examples/encoder_maddubs_i7_gemm_probe.rs:418-420 | the offset subtraction in wrapping i32 equals the exact difference modulo 2^32 even when raw, sum and product all wrapped |
| MaddubsGemm.CellIsSignedDot | examples/encoder_maddubs_i7_gemm_probe.rs:418-420 | a stored cell is the finished signed dot; exact, not only modulo 2^32, while 128·b·k < 2^31 |
| MaddubsGemm.OffsetExact | examples/encoder_maddubs_i7_gemm_probe.rs:418-420 | while 255·b·k < 2^31 no prefix of the weight sum, the product by 128 or the subtraction leaves i32, and the difference is the centred dot |
| MaddubsGemm.FinishExact | examples/encoder_maddubs_i7_gemm_probe.rs:418-420 | under the same bound the finished cell is the mathematical difference, with every i32 step in range |
| TwoPass.SplitIff | examples/attn_out_2pass_probe.rs:188-193 | the halves add up to the weight, the first is within 63, and the second within 64 if and only if the weight is not -128 |
| TwoPass.Prepare | examples/attn_out_2pass_probe.rs:185-197 | shifted activations, both weight halves and the i32 row sums as the GEMM expects them |
| TwoPass.HalvesDot | examples/attn_out_2pass_probe.rs:127-133 | the two half dots add up to the dot of the whole weights at every prefix |
| TwoPass.AddTwoPass | examples/attn_out_2pass_probe.rs:127-133 | one 32-byte step of both passes moves the register by exactly its slice of the dot, with no saturation in either pass; the flag is exactly that neither addition wrapped |
| TwoPass.TileMaddwd | examples/attn_out_2pass_probe.rs:63-83 | the eight slots of the sign-extending tile are the reference dots of four rows with two weight rows; `exact` holds if and only if no block addition and no shuffle node leaves i32, which is so while 16384·k < 2^31 |
| TwoPass.TileMaddwdFits | examples/attn_out_2pass_probe.rs:63-83 | over its eight registers that tile overflows nowhere while 16384·k < 2^31 |
| TwoPass.TileTwoPass | examples/attn_out_2pass_probe.rs:117-136 | the eight slots of the two-pass tile are the raw u8 dots of four rows with two weight rows; `exact` holds if and only if neither pass nor any shuffle node leaves i32, which is so while 32385·k < 2^31 |
| TwoPass.TileTwoPassFits | examples/attn_out_2pass_probe.rs:117-136 | over its eight registers the two-pass tile overflows nowhere while 32385·k < 2^31 |
| TwoPass.OffsetCancels | examples/attn_out_2pass_probe.rs:137-140 | the u8 dot minus 128 times the row sum is the int8 dot, in wrapping i32 for every k |
| TwoPass.GemmMaddwd | examples/attn_out_2pass_probe.rs:36-88 | full blocks and the scalar row tail leave the reference dot in every cell, each stored once, for any row count and block order |
| TwoPass.GemmTwoPass | examples/attn_out_2pass_probe.rs:94-145 | rows in full blocks of four become the reference dots and the rows of a short last block keep what the buffer held |
| TwoPass.ReferenceIs | examples/attn_out_2pass_probe.rs:36-88 | the reference in plain addresses: entry r·n + o is the wrapped sum of a[r·k + x]·w[o·k + x] |
| TwoPass.Compare | examples/attn_out_2pass_probe.rs:199-227 | a reference buffer and one with only full blocks filled over zeros agree on every row outside the short block, and everywhere when there is none |
| TwoPass.BothGemms | examples/attn_out_2pass_probe.rs:199-227 | both GEMMs fill their buffers alike when m is a multiple of four; otherwise they agree on all but the skipped rows, which stay zero |
| TwoPass.CorrectionExact | examples/attn_out_2pass_probe.rs:137-140 | while 32385·k < 2^31 no prefix of the weight sum, the product by 128 or the subtraction leaves i32, and the difference is the signed dot |
| DotI8.BlockSumTo | examples/dot_i8_probe.rs:60-68 | a sign-extended 16-wide `vpmaddwd` block sums to exactly that slice of the dot |
| DotI8.DotScalar | examples/dot_i8_probe.rs:32-38 | the scalar loop leaves the reference i32 of the common prefix of its arguments, of any two lengths; `exact` holds if and only if no product or sum of it leaves i32, which is so while b·b·n < 2^31 |
| DotI8.DotAvx2 | examples/dot_i8_probe.rs:45-90 | two-accumulator 32-wide loop, 16-wide tail, shuffle tree and scalar tail: the reference i32 for every length; `exact` holds if and only if no lane, fold, node or tail step leaves i32, which is so while b·b·n < 2^31 |
| DotI8.DotAvx2Fits | examples/dot_i8_probe.rs:45-90 | step by step over its four registers it overflows nowhere while b·b·n < 2^31 |
| DotI8.DotAvx2FourAcc | examples/dot_i8_probe.rs:95-133 | the 64-wide four-accumulator form returns the same reference i32 for every length; `exact` holds if and only if nothing of it leaves i32 |
| DotI8.DotFourAccFits | examples/dot_i8_probe.rs:95-133 | nor does the four-accumulator form, under the same bound |
| DotI8.DotAvx2TwoRow | examples/dot_i8_probe.rs:149-190 | both results of the two-row form are the reference i32 of their own row, over the shortest of the three arguments; `exact` holds if and only if neither row leaves i32 anywhere |
| DotI8.RowFits | examples/dot_i8_probe.rs:149-190 | nor does either row of the two-row form, under the same bound |
| DotI8.GemvScalar | examples/dot_i8_probe.rs:208-213 | every output is the reference dot of its weight row |
| DotI8.GemvTwoRow | examples/dot_i8_probe.rs:193-205 | row pairs and an odd last row give the same outputs as the row-by-row product, for every row count |
| DotI8.GemvSpelled | examples/dot_i8_probe.rs:193-213 | an output of either product in plain addresses: the wrapped sum of w[o·k + i]·x[i] |
| DotI8.DotI8Exact | examples/dot_i8_probe.rs:23-38 | the i32 is the mathematical dot and no prefix overflows while b·b·k < 2^31 for operands within b |
| Quantise.QuantisedNear | examples/encoder_maddubs_i7_gemm_probe.rs:70-71 | round half away then clamp is within a half of every value no further than a half outside the clamp |
| Quantise.ScaleCovers | examples/encoder_maddubs_i7_gemm_probe.rs:65-66 | the row scale times the bound covers every entry of the row |
| Quantise.ScaleTight | examples/encoder_maddubs_i7_gemm_probe.rs:65-67 | the scale is tight: times the bound it is the magnitude of some entry, or it is 1e-9 and no entry exceeds that |
| Quantise.FullScale | examples/encoder_maddubs_i7_gemm_probe.rs:65-71 | a row with an entry of magnitude above 1e-9 has a level of magnitude exactly the bound |
| Quantise.EntryByPeak | examples/encoder_maddubs_i7_gemm_probe.rs:65-72 | every stored entry is its input over (largest magnitude or 1e-9, divided by the bound), rounded, clamped and shifted |
| Quantise.ScaledWithin | examples/encoder_maddubs_i7_gemm_probe.rs:66-70 | dividing by the scale lands within the bound, so the clamp never bites |
| Quantise.HalfStep | examples/encoder_maddubs_i7_gemm_probe.rs:66-71 | a level times the scale is within half a step of its input |
| Quantise.RowScale | examples/encoder_maddubs_i7_gemm_probe.rs:65-67 | the running maximum gives the largest magnitude or 1e-9, divided by the bound |
| Quantise.QuantRow | examples/encoder_maddubs_i7_gemm_probe.rs:184-195 | one row stores each entry once and returns the wrapping i32 sum of its own levels |
| Quantise.QuantRows | examples/encoder_maddubs_i7_gemm_probe.rs:175-198 | rows in any order: every level, scale and sum is that of its own row, for the u8, 7-bit and 5-bit forms alike; each scale is the row's largest magnitude or 1e-9 over the bound |
| Binary32.NearestIsNearest | examples/encoder_maddubs_i7_gemm_probe.rs:96 | the modelled f32 addition returns a nearest representable number |
| Binary32.NearestIsNumber | examples/encoder_maddubs_i7_gemm_probe.rs:96 | and what it returns is representable |
| Binary32.HalfAdded | examples/encoder_maddubs_i7_gemm_probe.rs:96-97 | adding one half in f32 and truncating gives the whole part of the exact sum for every number below 255 except 0.49999997, which is carried to one |
| Binary32.FractionIsNumber | examples/enc_i8quant_probe.rs:42-43 | the fraction an f32 leaves over its whole part is representable, so subtracting it is exact |
| QuantiseSimd.RoundingsAgree | examples/enc_i8quant_probe.rs:42-47 | without rounding, truncate-and-test-fraction, truncate-after-adding-half and scalar round half away agree on every real |
| QuantiseSimd.ScalarIsReal | examples/enc_i8quant_probe.rs:19-23 | on every f32 number the scalar quantiser is round half away and clamp of its real value |
| QuantiseSimd.LaneI8Value | examples/enc_i8quant_probe.rs:41-50 | in f32 the fraction form equals the scalar quantiser on every value, infinities included, but a NaN, which becomes -127 instead of 0 |
| QuantiseSimd.LaneU8Value | examples/encoder_maddubs_i7_gemm_probe.rs:95-99 | in f32 the add-half form equals the scalar quantiser on every value but a NaN and plus or minus 0.49999997, which become plus or minus one |
| QuantiseSimd.PacksKeepOrder | examples/enc_i8quant_probe.rs:50-54 | the saturating packs keep the eight in-range lanes, in order |
| QuantiseSimd.LanesStored | examples/enc_i8quant_probe.rs:41-54 | eight vector lanes of either form are stored in order with no pack saturating |
| QuantiseSimd.RowI8Iff | examples/enc_i8quant_probe.rs:25-26 | the signed vector row equals the scalar row byte for byte if and only if no scaled entry of the eight-lane loop is a NaN |
| QuantiseSimd.RowU8Iff | examples/encoder_maddubs_i7_gemm_probe.rs:83-85 | the promised byte identity of the unsigned row holds if and only if the eight-lane loop meets no NaN and no scaled entry of plus or minus 0.49999997 |
| QuantiseSimd.EdgeRow | examples/encoder_maddubs_i7_gemm_probe.rs:83-85 | a row with largest entry 127, hence inverse scale one, whose bytes differ under any multiplication that keeps values times one: 129 against 128 |
| QuantiseSimd.QuantRowScalar | examples/enc_i8quant_probe.rs:19-23 | the scalar row writes the rounded and clamped entries of the common prefix and nothing else |
| QuantiseSimd.QuantRowAvx2 | examples/enc_i8quant_probe.rs:28-63 | for every length the eight-lane loop and its scalar tail write that row, and nothing past the shorter argument |
| QuantiseSimd.QuantRowU8Avx2 | examples/encoder_maddubs_i7_gemm_probe.rs:87-113 | the unsigned row for every length, the tail quantised by the scalar form |
| ErrorFeedback.ResidualBound | examples/ef_quant_probe.rs:38-42 | the carried error stays within a half after every element, also when the clamp fires |
| ErrorFeedback.Conservation | examples/ef_quant_probe.rs:38-43 | weights so far equal levels so far plus the carried error, at every prefix |
| ErrorFeedback.PrefixError | examples/ef_quant_probe.rs:38-43 | every prefix sum of levels is within a half of the true prefix sum, whatever its length |
| ErrorFeedback.FeedbackDotError | examples/ef_quant_probe.rs:31-43 | the error of any dot product is at most half of the last activation plus the total variation of the activations |
| ErrorFeedback.IndependentDotError | examples/ef_quant_probe.rs:44-48 | independent rounding is bounded by half the absolute sum of the activations |
| ErrorFeedback.FeedbackNeverTwiceWorse | examples/ef_quant_probe.rs:1-5 | the feedback bound is never more than twice the independent one |
| ErrorFeedback.ColumnErrors | examples/ef_quant_probe.rs:1-5 | on the column 63, 0.4, ..., 0.4, whose scale is one, independent rounding errs by exactly 0.4 n while feedback stays within a half, for every n |
| ErrorFeedback.SeparateModes | examples/ef_quant_probe.rs:31-50 | running the quantiser in both modes on that column gives those two errors |
| ErrorFeedback.QuantFeedback | examples/ef_quant_probe.rs:37-43 | the loop with its carried error stores the levels of the recurrence |
| ErrorFeedback.QuantIndependent | examples/ef_quant_probe.rs:44-48 | the loop stores each entry rounded and clamped alone |
| ErrorFeedback.QuantW | examples/ef_quant_probe.rs:31-50 | either mode returns the largest magnitude or 1e-9 over 63, levels within 63 and a scaled column within 63, so the bounds above apply to every column |
| ErrorFeedback.NearDotError | examples/ef_quant_probe.rs:85-93 | levels within a half of a row err in a dot by at most half the absolute sum of the other factor |
| ErrorFeedback.VariationSnoc | examples/ef_quant_probe.rs:31-43 | the total variation in these bounds grows by exactly the distance of each further entry from the one before |
| Pipeline.DotError | examples/encoder_maddubs_i7_gemm_probe.rs:64-72 | levels within a half of two rows in steps have a dot within (b + 127) / 2 a term of the rows' real dot |
| Pipeline.RealDotScales | examples/encoder_maddubs_i7_gemm_probe.rs:420 | the real dot of two rows is the dot of the rows divided by their scales, times both scales |
| Pipeline.LevelsSum | examples/encoder_maddubs_i7_gemm_probe.rs:189-195 | the stored sum of a weight row is the sum of the levels the GEMM reads |
| Pipeline.CellIsNear | examples/encoder_maddubs_i7_gemm_probe.rs:57-424 | a finished cell is within k·(b + 127) / 2 steps of the real dot product of its two input rows |
| Pipeline.QuantisedProduct | examples/encoder_maddubs_i7_gemm_probe.rs:57-870 | from real matrices through both quantisers and any loop nest: every output cell is within 95 (for 5-bit weights 71) steps a term of the real dot of its rows, a step being the largest magnitudes of both rows over 127 and 63 (15) |
| Pipeline.TwoErrors | examples/ef_quant_probe.rs:96-108 | the error of a dot of quantised weights and quantised activations splits exactly into the activation error against the weights and the weight error against the activation levels |
| Pipeline.LevelDotError | examples/ef_quant_probe.rs:60-108 | hence the bound on that error in steps: half the absolute sum of the scaled weights plus half the last level and the total variation of the levels, or plus half their absolute sum without error feedback |
| Pipeline.ProbeDot | examples/ef_quant_probe.rs:60-115 | for every column and activation row the scaled integer dot is within this many steps of the true dot, a step being the column's largest magnitude over 63 times the row's over 127: half the absolute sum of the scaled weights, plus half of the last activation level and the variation of the levels under feedback, or half their absolute sum without |
| Pipeline.FeedbackInUnits | examples/ef_quant_probe.rs:31-43 | with unquantised activations feedback alone errs, in the units of the inputs, by at most half a weight step for each unit of the last activation and of the total variation |
| Conv.FillRow | examples/conv_im2col_cold_probe.rs:43-56 | one output row gets exactly its in-range taps, padding cells untouched |
| Conv.FillBand | examples/conv_im2col_cold_probe.rs:40-57 | one band fills the rows of its own frames only, each tap once |
| Conv.Im2col | examples/conv_im2col_cold_probe.rs:23-59 | for every geometry and band count the buffer is the gather of the input over its earlier contents |
| Conv.Im2colEntry | examples/conv_im2col_cold_probe.rs:38-58 | that gather in plain addresses: entry o·(cin·k) + ci·k + kk is x[(o·stride + kk - pad)·cin + ci] when that frame exists and the old entry otherwise |
| Conv.BufferReuse | examples/conv_im2col_cold_probe.rs:97-107 | gathering a second input over the first leaves what gathering it into the original buffer leaves |
| Conv.RunIsLast | examples/conv_im2col_cold_probe.rs:97-107 | after any run of inputs of one geometry the buffer is what a fresh one would hold for the last input |
| Conv.TransposeWt | examples/conv_wt_transpose_probe.rs:16-24 | every weight lands at its transposed place, each cell once |
| Conv.TransposedAt | examples/conv_wt_transpose_probe.rs:19-23 | in plain addresses: entry j·cout + co is w[co·patch + j] |
| Conv.TransposeInvolutive | examples/conv_wt_transpose_probe.rs:16-24 | transposing twice restores the weight |
| Conv.Im2colConvolves | examples/conv_im2col_cold_probe.rs:34-58 | the patch matrix times the transposed weight accumulates the terms of direct strided zero-padded convolution in the same order; no law of arithmetic is used |
| Conv.ConvTermIs | examples/conv_im2col_cold_probe.rs:43-56 | those terms in plain addresses: x[(o·stride + kk - pad)·cin + ci], or zero outside the input, times w[co·(cin·k) + ci·k + kk] |
| Conv.WindowsFit | examples/conv_im2col_cold_probe.rs:69 | the output length is exactly the number of windows that fit the padded input |
| Layout.WriteContiguous | examples/gather_fusion_probe.rs:39-44 | the contiguous write reproduces the input, frames in any order |
| Layout.Gather | examples/gather_fusion_probe.rs:47-64 | for every chunk count the gather puts frame i of head h at row h·t + i |
| Layout.WriteHeadMajor | examples/gather_fusion_probe.rs:68-76 | the fused write puts frame i of head h at row h·t + i, heads in any order |
| Layout.BothPaths | examples/gather_fusion_probe.rs:39-76 | contiguous write then gather and the fused write leave the same buffer for every shape and chunk count |
| Layout.HeadMajorInverse | examples/gather_fusion_probe.rs:55-75 | in plain addresses: entry (h·t + i)·dh + d of either path's buffer is val[i·(nh·dh) + h·dh + d] |
| Layout.HeadMajorCovers | examples/gather_fusion_probe.rs:47-64 | and every entry of the buffer has such an address |
| Layout.PackPanel | examples/enc_gemm_colpanel_probe.rs:37-43 | the packed panel holds columns j0 to j0 + pw of the weight, in row order |
| Layout.PanelEntry | examples/enc_gemm_colpanel_probe.rs:37-43 | in plain addresses: entry row·pw + c is wt[row·n + j0 + c] |
| Layout.PanelColumn | examples/enc_gemm_colpanel_probe.rs:121-129 | a column of the panel product is the full product's column: the accumulation over k is untouched |
| Layout.Scatter | examples/enc_gemm_colpanel_probe.rs:121-129 | the separate panel products scattered side by side are the full product, for every panel count dividing n |
| SegmentOracle.PushSegment | examples/e2e_probe.rs:52-57 | one segment appends a byte 1 and eight bytes, or a byte 0, for each time, then the length word and the text |
| SegmentOracle.WordBytes | examples/e2e_probe.rs:44 | byte i of a word is its i-fold quotient by 256, modulo 256 |
| SegmentOracle.Oracle | examples/e2e_probe.rs:39-59 | the loop returns the count word followed by the segments' encodings in order |
| SegmentOracle.LeRoundTrip | examples/e2e_probe.rs:44 | little-endian bytes read back to the number they came from |
| SegmentOracle.SegmentRoundTrip | examples/e2e_probe.rs:52-57 | a decoder recovers both optional times and the text of one segment from the front of any byte string it starts |
| SegmentOracle.OracleRoundTrip | examples/e2e_probe.rs:39-59 | the decoder recovers every segment list from its bytes |
| SegmentOracle.OracleInjective | examples/e2e_probe.rs:39-59 | equal bytes if and only if equal segment lists, of any lengths |
| SegmentOracle.DecodeIff | examples/e2e_probe.rs:39-59 | a byte string decodes to a list if and only if it is that list's encoding |
| Riff.FrameSumFits | examples/e2e_probe.rs:303-307 | the i32 sum of one frame cannot overflow for any channel count a u16 can hold |
| Riff.ReadFrames | examples/e2e_probe.rs:299-311 | one averaged sample for each complete frame, data length / (2·channels) in all, a partial last frame dropped |
| Riff.WalkChunks | examples/e2e_probe.rs:270-297 | the walk ends on every byte string; it panics if and only if a visited format chunk is cut short, else the last format and data chunks win |
| Riff.VisitChunk | examples/e2e_probe.rs:276-296 | one chunk updates exactly the variables its kind sets; it panics if and only if it is a format chunk with fewer than 16 body bytes left |
| Riff.ReadWavMono16k | examples/e2e_probe.rs:266-312 | what the first reader returns on every byte string, each panic included |
| Riff.FindData | examples/attn_lowrank_probe.rs:35-49 | the second walk stops at the first data chunk or the end, with the last format chunk before it |
| Riff.ReadWavMono16kSecond | examples/attn_lowrank_probe.rs:33-63 | what the second reader returns on every byte string |
| Riff.SameChunksIff | examples/attn_lowrank_probe.rs:33-63 | on every byte string the two walks take the same format and the same data chunk if and only if the walk has at most one data chunk and no format chunk after it |
| Riff.FramesEqualIff | examples/attn_lowrank_probe.rs:51-62 | two frame lists agree for every averaging function if and only if their frame sums agree and, if there is a frame, so do the channel counts |
| Riff.SamplesAgreeIff | examples/attn_lowrank_probe.rs:33-63 | on every byte string the first reader accepts, the second one succeeds, and their samples agree for every averaging function if and only if the bodies taken have equal frame sums and, if there is a frame, equal channel counts |
| Riff.ReadersAgree | examples/attn_lowrank_probe.rs:33-63 | on any byte string with at most one data chunk and no format chunk after it, the second reader returns the first one's samples whenever that one does not panic |
| Riff.WalkFile | examples/e2e_probe.rs:275-297 | the walk over a written file visits exactly its chunks, whatever the padding bytes |
| Riff.ReadersInvertWriter | examples/e2e_probe.rs:266-312 | on any written file with one 16-bit format chunk before one data chunk both readers return one averaged sample per frame of the data body, with its rate and channels |
| Riff.SampleRoundTrip | examples/e2e_probe.rs:305 | every 16-bit sample x is read back from the bytes x mod 256 and x / 256 mod 256, negative ones included |
| Riff.FramesOfPcm | examples/e2e_probe.rs:299-311 | a body written from PCM frames reads as the average of each frame's own integers |
| Riff.ReadersInvertPcm | examples/e2e_probe.rs:266-312 | on a 16-bit PCM file spelled out byte by byte both readers return, frame by frame, the average of the integers that were written, and the first one the rate and channel count |
| Riff.TwoDataChunksDiffer | examples/attn_lowrank_probe.rs:43-46 | a file with two data chunks on which the readers differ: the first keeps the last body, the second the first |
| VocabScan.Position | benches/native_engine_bench.rs:1969 | the first occurrence of a token, or that there is none |
| VocabScan.WantedSnoc | benches/native_engine_bench.rs:1968-1975 | one more pattern wants at most its own first occurrence |
| VocabScan.LegacyBuild | benches/native_engine_bench.rs:1966-1978 | the pattern-major scan returns the strictly ascending first-occurrence ids that fit i32 |
| VocabScan.ScanStep | benches/native_engine_bench.rs:1986-1991 | removal from the shrinking set succeeds exactly at the first occurrence of a pattern |
| VocabScan.NothingLeft | benches/native_engine_bench.rs:1992-1994 | stopping once the set is empty loses no id |
| VocabScan.SingleScan | benches/native_engine_bench.rs:1980-1997 | the single scan with early exit returns the strictly ascending first-occurrence ids that fit i32 |
| VocabScan.AscendingUnique | benches/native_engine_bench.rs:1976 | that list is unique: strictly ascending lists with the same members are equal |
| VocabScan.BothScans | benches/native_engine_bench.rs:1966-1997 | both scans return the same strictly ascending list, for every vocabulary and pattern list, duplicates included: the indices up to 2147483647 of first occurrences of a pattern |
| VocabScan.SuppressPatterns | benches/native_engine_bench.rs:1899-1911 | each symbol bare and after a space, in order, then the two extra patterns |
| HashingWriter.FeedJoins | benches/sync_bench.rs:283-292 | feeding pieces one by one gives the state of feeding their concatenation, from the compositional law alone |
| HashingWriter.CutsDoNotMatter | benches/sync_bench.rs:255-256 | two ways of cutting the same bytes give the same digest |
| HashingWriter.DocumentLine | benches/sync_bench.rs:328-330 | the document grows by each line and the byte 10 |
| HashingWriter.Sink.Write | benches/sync_bench.rs:305-308 | a buffered sink takes a prefix of the bytes or refuses all of them; scripted, one answer a call |
| HashingWriter.Sink.WriteAll | benches/sync_bench.rs:306-308 | on every script the sink accepted a prefix of the bytes, all of them on success; interruptions are retried, a write of nothing is an error |
| HashingWriter.Hw.constructor | benches/sync_bench.rs:324-327 | a new writer over an empty sink starts with hashed bytes equal to accepted bytes |
| HashingWriter.Hw.Write | benches/sync_bench.rs:288-292 | full, short or refused, one write keeps hashed bytes equal to accepted bytes and answers as the sink does |
| HashingWriter.Hw.Flush | benches/sync_bench.rs:293-295 | flushing hashes nothing and on success the file holds every accepted byte |
| HashingWriter.Hw.WriteAll | benches/sync_bench.rs:328-330 | the invariant survives any number of short writes, retries and failures; success means every byte was accepted |
| HashingWriter.Hw.WriteLine | benches/sync_bench.rs:329 | a line and its newline accepted in order, or a prefix of them and an error, the invariant kept |
| HashingWriter.Reader.Read | benches/sync_bench.rs:246-249 | a read fills the front of the buffer with the next bytes and leaves the rest stale; zero means the end of the file or an empty buffer |
| HashingWriter.HashWithBuf | benches/sync_bench.rs:241-253 | the digest is that of the whole file for every buffer size of at least one and every run of short reads; a buffer of size zero digests nothing |
| HashingWriter.WriteStreaming | benches/sync_bench.rs:323-333 | the file ends as the lines with newlines and the digest is that of the file; when it panics the sink holds a prefix |
| HashingWriter.WriteThenReread | benches/sync_bench.rs:303-322 | the reread digest is that of the lines with newlines, for any sink, read script and buffer size |
| HashingWriter.BothExports | benches/sync_bench.rs:335-337 | if both exports finish they leave equal files and equal digests |
| Bootstrap.StepBijective | examples/e2e_probe.rs:75-77 | the three-shift step has a two-sided inverse on all 64-bit words |
| Bootstrap.NeverZero | examples/e2e_probe.rs:75-77 | no run from a non-zero state reaches zero |
| Bootstrap.NoTail | examples/e2e_probe.rs:75-77 | a run that repeats a state returns to its own start first |
| Bootstrap.SeedNonZero | examples/e2e_probe.rs:68 | the seed is non-zero for every sample length memory can hold, in both harnesses |
| Bootstrap.StatesNonZero | benches/native_engine_bench.rs:242-250 | hence, from the seed of either harness, no state drawn from in any resample is zero |
| Bootstrap.SortedRank | examples/e2e_probe.rs:61-65 | position k after sorting is the element with at most k below it and more than k at or below it |
| Bootstrap.RankUnique | examples/e2e_probe.rs:61-65 | at most one value has a given rank |
| Bootstrap.Median | examples/e2e_probe.rs:61-65 | the element of rank half the length, and a panic exactly on an empty sample |
| Bootstrap.Resample | examples/e2e_probe.rs:73-79 | draw d of a resample is the value at the state after d + 1 steps modulo their number, and the generator is handed on |
| Bootstrap.ResampleMedians | examples/e2e_probe.rs:71-81 | the medians of consecutive resamples, the j-th drawn from the state j·n steps after the seed, and a panic exactly when an empty sample is resampled at all |
| Bootstrap.BootstrapMedianCi | examples/e2e_probe.rs:67-87 | the two ends are the 2.5% and 97.5% ranks of the medians of consecutive resamples, and a panic exactly on an empty sample |
| Bootstrap.IntervalWithin | examples/e2e_probe.rs:83-86 | the interval is ordered and both ends are measurements, for odd and even sample sizes |
| Bootstrap.IntervalCovers | benches/native_engine_bench.rs:256-260 | at least 19001 of the 20000 resample medians lie in the interval, and the matching share for any count |
| Bootstrap.IntervalUnique | examples/e2e_probe.rs:67-87 | sample and seed determine the interval |
| Bootstrap.IntervalMaps | benches/native_engine_bench.rs:241-261 | any non-decreasing rescaling of the measurements rescales the interval |

## Left out

- Quantise.QuantRows: does not model f32 rounding, NaN or infinite entries; it works over the reals, and so do ErrorFeedback and Pipeline. `QuantiseSimd` compares the vector and scalar rows in f32.
- QuantiseSimd.QuantRowAvx2: does not model how the row scale was computed, only that both forms multiply by the same inverse.
- MaddubsGemm.Run: does not model n = 0, where the chunking primitive panics, nor lengths past usize.
- DotI8.DotAvx2: does not model out-of-bounds reads of a second argument shorter than the first.
- Riff.ReadWavMono16k: does not model 32-bit usize, where position arithmetic could wrap; the float average is one uninterpreted function of frame sum and channel count.
- HashingWriter.HashWithBuf: does not model the hash itself; only that updating twice equals updating with the concatenation, and that updating with nothing changes nothing.
- HashingWriter.Sink.Write: does not model when the buffer drains, only that it may drain any amount at any call.
- Bootstrap.BootstrapMedianCi: does not model floats beyond their total order.
- SegmentOracle.Oracle: does not model UTF-8 validity of the text, which is any byte string here.
- The library crate (`src/`): model loading, encoder, decoder, storage, sync, router and terminal audio code are not part of this model.
- `gemm_i8_widening`, `gemv_4acc` and `gemv_avx2`: the same row loops over dots already covered.
- Softmax, exponentials, layer norm, low-rank projections and other floating-point probes: their point is rounding.
- Work stealing and data races: tasks are sequential in any order; their disjointness is proved instead.
- Timing, host identity, thread counters, printing, environment and file access.
- Artifact tables, transcript concatenation, coefficient of variation, percentile helpers: easy members.
