# larql: CUDA inference kernels and their surroundings, modelled and proved

The project models the numerical core of larql and the state around it.

- **Kernels.** Greedy top-K, key/value append, decode and prefill attention, RMS normalisation,
  rotary embedding and the Q4_K, Q6_K and Q4_0 decode-and-dot kernels are methods over arrays. A block
  is a sequence of barrier intervals; the threads of an interval, and the blocks of a grid, run in an
  order picked by nondeterministic choice, so what is proved holds for every order. Each kernel is tied
  to a simple specification, and the specifications to each other: two-stage selection is one sort,
  decoding over the cache is causal prefill, per-head normalisation is row normalisation, the fused
  matrix kernel is two single ones, gather is the transpose of gather, and the dequantisers read back
  what the quantisers write.
- **State.** The key/value cache, the generation-scoped graph cache with its buffer handles, the
  ping-pong arena and the decode layer loop with all its fallbacks are classes whose invariants hold
  over every run.
- **Around them.** The boundary gate's robustness guarantee, the weight-manifest rebuild, the image
  tiler, the two-pass dump ingest, the bimodality search, sliding-window scoring and base64.

Arithmetic is over `real`, except that q4k_matvec, q4k_dual_matvec and q4k_matmul are generic in their
float operations, so that "same operations in the same order" is a statement about any arithmetic.
`exp`, `tanh`, `sqrt`, `cos`, `sin`, division and half-precision decoding are parameters; where a
result needs a law of theirs it is a hypothesis of that result. Greedy scores keep NaN and infinities
as cases of their own. 32-bit products and strided indices of the kernels are computed in 32 bits here.

Files: `Arith`, `Sums`, `Sets`, `Wrappers`, `Float32`, `Libm`, `BlockReduce`,
`Strides` and `Windows` are shared; `Greedy*` the selection kernels, `TokenPick` the whole greedy head; `Attention*` and `Kv*` attention and its cache; `RmsNorm`, `Rope`; `QuantFormats`,
`Q4kKernels`, `Q4kMeaning`, `Q4kMatMul`, `Q6kKernel`, `Q4Transpose` the quantised kernels, `QuantBlocks` and `Q8Quantiser` what the quantisers write for them; `FfnGraphState`,
`GraphLifetime` and `DecodeLoop` the graph path; `Boundary` the gate; the rest one piece each.

## Where the code does not do what is said of it

Each point is a proved lemma; the exact condition is part of the statement.

- A key/value append loses rows once its element count reaches 2^32, which wraps the launch's thread
  count, or once its last row number does, which wraps into the first rows of the cache
  (`KvCache.AppendExact`, both ways; the launcher bounds neither to 32 bits).
- A resident decode step that fails in the attention launch has already appended its row and moved the
  cursor (`KvAgreement.ResidentDecode` says exactly when; `KvAgreement.AppendedThenRefused`).
- A strided thread loop whose 32-bit index wraps never ends: decode_attention within 256 of 2^32 rows or
  channels, prefill_attention within 256 of 2^32 channels, rms_norm within a block of 2^32 columns and
  greedy_topk_final within 256 of 2^32 partials, all of which the launchers accept
  (`Strides.AllEndExactly`, both ways; `Attention.LaunchDecode`, `Attention.LaunchPrefill`,
  `RmsNorm.RmsNormKernel` and `GreedyHead.LaunchFinal` say exactly when).
- Query heads that the key heads do not divide read past their cached row, and nothing refuses them
  (`Attention.HeadsFitExactly`, both ways).
- q4k_matvec and q6k_matvec read another row's bytes once a row's byte offset reaches 2^32
  (`Q4kMeaning.MatVecExact`, `Q6kKernel.MatVecExact`, both ways). For the greedy head that means a wrong
  token (`TokenPick.PickExact`, both ways).
- q4k_matmul's output is wrong for some weights and inputs once the row length, the number of cells,
  the last row's byte offset or the last column's offset reaches 2^32 (`Q4kMatMul.MatMulExact`, both
  ways).
- The Q4_0 kernels are transposes on all inputs only if no non-zero activation is below 1e-10 in
  magnitude (`Q4Transpose.TransposeExact`, both ways).
- The decode layer loop returns a wrong hidden state, or appends a row twice, when a captured graph
  fails after attention and the fallback is not reached or fails too, or when attention bails and the
  carried input cannot be copied back (`DecodeLoop.RightExactlyWhenUnbroken`, both ways). The comments
  promise one row per layer; `DecodeLoop.OneRowEach` says when that holds.
- The device key/value cache and the host mirror are meant to stay in lockstep. A layer whose device
  cache misses one row never catches up, and after a lost input they can hold as many rows and different
  ones (`KvLockstep.LockstepExactly`, both ways; `KvLockstep.TornExample`).
- Preallocating for more layers than there are leaves the layers that are kept at their old size, so that a
  success does not mean room for the wanted rows (`KvCache.PreallocatedCovers`, both ways).
- The log-probability margin is documented as always positive; it is zero for ties and for a single
  entry (`BoundaryMetadata.MarginsAgree`). Identical logits with a tied maximum count as a
  disagreement, because the two sides break ties differently (`BoundaryMetadata.SelfAgreement`).
- The tiler's number of detail tiles is always one of the valid counts only if the largest is positive and
  they contain every number above a quarter of it (`AnyresTiler.CountsValidExactly`, both ways;
  `AnyresTiler.ThreeOfFour`).
- The rebuild silently drops manifest entries beyond a multiple of three
  (`ManifestRebuild.EntriesDropped`, both ways).
- The sliding window accepts strides below one. With stride zero it never ends
  (`ShannonWindow.NoHeadway`); with a negative one its first or second window is empty
  (`ShannonWindow.Score`).

## Model

| member | source | states |
|---|---|---|
| BlockReduce.TreeInterval | crates/larql-compute-cuda/src/ops.rs:1674-1685 | one barrier interval of a shared-memory tree leaves every lane's combination of the values before the interval, although loads and stores of the threads interleave arbitrarily |
| BlockReduce.TreeReduce | crates/larql-compute-cuda/src/ops.rs:1381-1391 | the loop of halving strides over a power-of-two block computes the tree as a function of the initial cells, whatever the thread order between barriers |
| BlockReduce.TreeSums | crates/larql-compute-cuda/src/ops.rs:1402-1411 | over reals cell 0 of the adding tree is the plain sum of the row |
| BlockReduce.TreePicks | crates/larql-compute-cuda/src/ops.rs:1674-1685 | cell 0 of a selecting tree is an element of the row that no element beats, for every strict weak order |
| BlockReduce.StridedSums | crates/larql-compute-cuda/src/ops.rs:954-965 | the threads' partial sums add up to the plain sum of the row, for every row length and block size |
| BlockReduce.StridedPicks | crates/larql-compute-cuda/src/ops.rs:1766-1782 | a thread's running best is its start value or one of its own elements, and none of its elements beats it |
| Strides.EndsExactly | crates/larql-compute-cuda/src/ops.rs:1355-1369 | with its 32-bit index, thread tid's strided loop ends if and only if the length is at most 2^32 - block + tid, for every block size that divides 2^32 |
| Strides.AllEndExactly | crates/larql-compute-cuda/src/ops.rs:954-957 | the loops of a whole block end if and only if the length is at most 2^32 - block |
| GreedyRanking.RankIsSorted | crates/larql-compute-cuda/src/ops.rs:1625-1632 | the ranking by (score descending, id ascending) lists exactly the candidates, strictly ordered |
| GreedyRanking.RankIsUnique | crates/larql-compute-cuda/src/ops.rs:1625-1632 | there is only one such list, so the selected tokens cannot depend on thread or block order |
| GreedyRanking.TopOfParts | crates/larql-compute-cuda/src/ops.rs:1593-1596 | selecting the first k of each part and then the first k of those is selecting the first k of all |
| GreedyTopK.LoadSlice | crates/larql-compute-cuda/src/ops.rs:1647-1655 | after the load interval a block's shared slice holds its scores, with non-finite ones and lanes past the last row masked |
| GreedyTopK.SliceWinner | crates/larql-compute-cuda/src/ops.rs:1664-1685 | one pass's reduction yields the best remaining candidate of the slice, or the sentinel if none is left |
| GreedyTopK.PassWinner | crates/larql-compute-cuda/src/ops.rs:1686-1707 | the winner of pass kk is the kk-th of the slice's ranking, and masking it leaves exactly the rest |
| GreedyTopK.SlicePass | crates/larql-compute-cuda/src/ops.rs:1664-1707 | pass kk writes that candidate (or the sentinel pair) to its own slot and touches no other slot |
| GreedyTopK.PartialBlock | crates/larql-compute-cuda/src/ops.rs:1634-1709 | a block's k slots hold the first k of its slice in order, padded with sentinels |
| GreedyTopK.PartialKernel | crates/larql-compute-cuda/src/ops.rs:1634-1709 | the same for the whole grid with blocks in any order, every write inside the buffers |
| GreedyFinal.ScanThread | crates/larql-compute-cuda/src/ops.rs:1766-1782 | a thread's strided scan, index in 32 bits, ends exactly when Strides.Ends says so and then yields the best finite entry of its own stride |
| GreedyFinal.BestPartial | crates/larql-compute-cuda/src/ops.rs:1759-1797 | for the launched block of 256: the pass ends exactly up to 2^32 - 256 partials, and scan and tree then yield the best of all remaining ones |
| GreedyFinal.FinalPass | crates/larql-compute-cuda/src/ops.rs:1798-1815 | a pass writes that partial to its result slot and masks exactly that entry of the partial buffer |
| GreedyFinal.FinalKernel | crates/larql-compute-cuda/src/ops.rs:1737-1818 | it ends exactly when no candidate is asked for or there are at most 2^32 - 256 partials; the result buffers then hold the first k of the finite ones, padded with sentinels |
| GreedyHead.GreedyHeadWorkspace.Build | crates/larql-compute-cuda/src/greedy_workspace.rs:77-126 | a built workspace matches its own shape and its buffers are large enough for both kernels |
| GreedyHead.LaunchPartial | crates/larql-compute-cuda/src/backend/runtime.rs:2770-2820 | a matching workspace is never refused; a launch that is accepted leaves every slice's ranking in its slots |
| GreedyHead.LaunchFinal | crates/larql-compute-cuda/src/backend/runtime.rs:2822-2900 | refused exactly for buffers that are too small; the count is cut to 32 bits; never-ending exactly within a block of 2^32; otherwise the ranking of the partials, from distinct ids |
| GreedyHead.TwoStagesAreOne | crates/larql-compute-cuda/src/ops.rs:1590-1632 | the first k of the first stage's output are the first k finite scores of the whole vector |
| GreedyHead.ReadHits | crates/larql-compute-cuda/src/pipeline.rs:976-999 | reading up to the first sentinel or non-finite score recovers exactly the selected candidates |
| GreedyHead.GreedyChain | crates/larql-compute-cuda/src/pipeline.rs:821-1005 | from any score vector and any cached or stale workspace: the pick is the first of the ranking of all finite scores and the hits are its first k; no pick if there is none |
| TokenPick.Validate | crates/larql-compute/src/backend/greedy.rs:89-148 | exactly for heads whose dimensions, bytes and norm weight fit together: the number of rows to score, the smaller of the logical and the physical vocabulary |
| TokenPick.PickToken | crates/larql-compute-cuda/src/pipeline.rs:821-1005 | from the hidden state, any head and any workspace: no pick for an invalid head or width zero, a hang exactly where the norm's index wraps, otherwise the ranking of the device's scores cut off at the width; every id of it lies below the logical and the physical vocabulary, and there are min(width, 8, logical, physical) of them |
| TokenPick.PickIsBest | crates/larql-compute-cuda/src/pipeline.rs:821-1005 | where the rows' byte offsets fit 32 bits: of all rows below both vocabularies, each read from the head's bytes at its own offset, the pick is the first whose dequantised product with the normalised state is highest; the hits carry their rows' products in descending order, and no other such row comes before one of them |
| TokenPick.PickExact | crates/larql-compute-cuda/src/ops.rs:221-223 | for a shape of head: the pick is that row for all weights, norms and hidden states if and only if the byte offsets of the rows below both vocabularies fit |
| TokenPick.StateIsNormed | crates/larql-compute-cuda/src/pipeline.rs:894-907 | each element of the state that the rows are multiplied with is the hidden state's, over the root of its mean square plus eps, times offset plus weight where the head has a weight |
| AttentionSpec.SoftmaxIsConvex | crates/larql-compute-cuda/src/ops.rs:1395-1418 | the weights are positive and add up to one |
| AttentionSpec.SoftmaxIsPlain | crates/larql-compute-cuda/src/ops.rs:1371-1418 | subtracting the row maximum first changes no weight, given the exponential law |
| AttentionSpec.HeadOutIsConvex | crates/larql-compute-cuda/src/ops.rs:1419-1430 | every output channel lies within any bounds on the attended value rows' channel |
| AttentionSpec.HeadRowLocal | crates/larql-compute-cuda/src/ops.rs:1340-1430 | a head's output depends on its own query slice and the first len rows of its key/value head alone |
| AttentionMeaning.HeadIsAttention | crates/larql-compute-cuda/src/ops.rs:1340-1430 | a head's output times the plain sum of exponentials is the sum of the value rows weighted with them; the scores are scale times query dot key, capped where there is a cap |
| AttentionMeaning.DecodeIsAttention | crates/larql-compute-cuda/src/ops.rs:1340-1430 | so is every channel of decode_attention's output, from query head h's slice and key head h / reps |
| AttentionMeaning.PrefillIsAttention | crates/larql-compute-cuda/src/ops.rs:1497-1587 | and of prefill_attention's, over the rows up to the query's own position |
| AttentionMeaning.ScaleOnQuery | crates/larql-compute-cuda/src/ops.rs:1363 | without a soft cap, scale s on query q is scale one on s * q |
| AttentionMeaning.ZeroScaleIsMean | crates/larql-compute-cuda/src/ops.rs:1363 | with scale zero the output is the mean of the value rows |
| AttentionMeaning.UnitQueryWeights | crates/larql-compute-cuda/src/ops.rs:1355-1369 | for a unit query the weights of two rows stand to each other as the exponentials of the scaled keys in the named channel |
| AttentionMeaning.OneRowIsCopied | crates/larql-compute-cuda/src/ops.rs:1419-1430 | over a single row the output is that row of V |
| AttentionMeaning.CapBoundsWeights | crates/larql-compute-cuda/src/ops.rs:1364-1367 | with a soft cap no row outweighs another by more than the exponential of twice the cap |
| AttentionMeaning.IdentityIsNoCap | crates/larql-compute-cuda/src/ops.rs:1364-1367 | a cap whose tanh is the identity changes nothing |
| Attention.ScorePhase | crates/larql-compute-cuda/src/ops.rs:1355-1369 | the strided loops end exactly up to 2^32 - 256 rows; then the scores (scaled, soft-capped) of all rows are written, threads in any order, nothing outside the window changes |
| Attention.MaxPhase | crates/larql-compute-cuda/src/ops.rs:1371-1391 | strided maxima and the tree give the maximum of the row |
| Attention.ExpPhase | crates/larql-compute-cuda/src/ops.rs:1393-1411 | strided in-place exponentials and the tree leave the exponentials in the row and return their plain sum |
| Attention.ScalePhase | crates/larql-compute-cuda/src/ops.rs:1413-1418 | the row holds the softmax weights afterwards, also when their sum is not positive (weights zero) |
| Attention.ValuePhase | crates/larql-compute-cuda/src/ops.rs:1420-1430 | the strided loops end exactly up to 2^32 - 256 channels; the output window then holds the weighted mix of the value rows |
| Attention.AttendBlock | crates/larql-compute-cuda/src/ops.rs:1322-1432 | one block ends exactly when its strided loops over rows and channels do; the five phases then compute the head's attention row and touch only its windows |
| Attention.DecodeKernel | crates/larql-compute-cuda/src/ops.rs:1322-1432 | one block per query head, in any order: the kernel ends exactly when rows and channels stay a block below 2^32 (or nothing runs); every window then holds its head's attention row; nothing is written for an empty cache |
| Attention.PrefillKernel | crates/larql-compute-cuda/src/ops.rs:1470-1588 | one block per (head, position), in any order: the same condition on the rows and channels; every window then holds causal attention over the rows up to its position |
| Attention.HeadsFitExactly | crates/larql-compute-cuda/src/pipeline.rs:2220 | with reps the rounded-down quotient of the head counts, every query head's keys lie within its row if and only if the key heads divide the query heads |
| Attention.LaunchDecode | crates/larql-compute-cuda/src/backend/runtime.rs:1421-1500 | for heads that fit: refused exactly outside the launcher's limits; never-ending exactly where those let a strided index wrap; otherwise zeros for an empty cache and the kernel's rows |
| Attention.LaunchPrefill | crates/larql-compute-cuda/src/backend/runtime.rs:3175-3280 | likewise, with the shared-memory limit on the number of rows, so that only the channels' index can wrap |
| Attention.DecodeMatchesPrefill | crates/larql-compute-cuda/src/ops.rs:1434-1470 | a decoded head equals the prefilled head at the same position whenever the caches agree on the rows up to it |
| KvCache.AppendKernel | crates/larql-compute-cuda/src/ops.rs:893-918 | threads in any order copy the block's first "total" elements, row r to cache row (pos + r) mod 2^32, and nothing else changes |
| KvCache.LayerKVCache.constructor | crates/larql-compute-cuda/src/kv_cache.rs:43-72 | an empty layer of the given shape |
| KvCache.LayerKVCache.Append | crates/larql-compute-cuda/src/backend/runtime.rs:286-382 | carried out exactly when sizes, 32-bit limits and capacity fit, and nothing changes otherwise; the buffers then hold what the launch's threads place, and the cursor stands after the block |
| KvCache.AppendExact | crates/larql-compute-cuda/src/backend/runtime.rs:286-382 | an accepted append leaves the rows before the cursor followed by the block, for every buffer and block, if and only if the element count fits 32 bits and (unless the block is empty) the last row number does |
| KvCache.AppendedRows | crates/larql-compute-cuda/src/backend/runtime.rs:286-382 | in terms of a layer: where that holds and the cursor is within the rows held, the layer holds the rows before it and the new ones |
| KvCache.CudaKVCache.HasShapeMismatch | crates/larql-compute-cuda/src/kv_cache.rs:108-114 | true exactly when some layer both lists share has a different shape |
| KvCache.GrowLayers | crates/larql-compute-cuda/src/kv_cache.rs:94-128 | layers are pushed until the shapes are covered, existing ones kept; stops at the first shape whose size overflows |
| KvCache.CudaKVCache.Preallocate | crates/larql-compute-cuda/src/backend/mod.rs:1397-1447 | an absent cache is built, a present one kept, grown or rebuilt, exactly as shapes and capacity demand; a failed build or rebuild leaves it as it was, absent or present, a failed growth keeps the layers grown so far |
| KvCache.PreallocatedCovers | crates/larql-compute-cuda/src/backend/mod.rs:1397-1447 | a successful preallocation covers the wanted shapes and keeps layers that fit; every layer then has room for the wanted rows if and only if the cache was not grown from one with a smaller layer |
| KvCache.CudaKVCache.Clear | crates/larql-compute-cuda/src/kv_cache.rs:130-134 | every cursor returns to zero and all rows are forgotten |
| KvCache.CudaKVCache.Append | crates/larql-compute-cuda/src/backend/mod.rs:1449-1505 | false with nothing changed for an absent cache, an absent layer or a refused block; otherwise that layer alone is extended |
| KvAgreement.Run | crates/larql-compute-cuda/src/backend/mod.rs:1397-1505 | any run of clear, preallocate and append on the device cache, wrapping and refused appends included, leaves exactly what the run leaves on plain values |
| KvAgreement.ReplayWellFormed | crates/larql-compute-cuda/src/kv_cache.rs:73-139 | every reachable cache holds whole rows within capacity in every layer |
| KvAgreement.ChunksConcatenate | crates/larql-compute-cuda/src/backend/mod.rs:1449-1505 | appending rows in chunks of any sizes leaves all of them in order |
| KvAgreement.DecodedRow | crates/larql-compute-cuda/src/ops.rs:1434-1588 | the decoded output is row qi of the prefilled output |
| KvAgreement.DecodeEqualsPrefill | crates/larql-compute-cuda/src/ops.rs:1298-1588 | for a cached layer, however it was filled, and heads that fit: wherever both launches are accepted and end, decode_attention over its first qi + 1 rows writes row qi of prefill_attention over all its rows |
| KvAgreement.ResidentDecode | crates/larql-compute-cuda/src/backend/mod.rs:1507-1593 | not taken, with nothing changed, exactly when a guard before the append fails; otherwise the row is appended, and the attention launch is refused, hangs or computes attention over everything held, each exactly under its condition |
| KvAgreement.AppendedThenRefused | crates/larql-compute-cuda/src/backend/mod.rs:1555-1590 | 65536 heads over a layer of 65536 rows: every guard passes, the launch refuses |
| RmsNorm.ShuffleSums | crates/larql-compute-cuda/src/ops.rs:964-965 | lane 0 of the shuffle reduction ends with the sum over the warp |
| RmsNorm.BlockSumSquares | crates/larql-compute-cuda/src/ops.rs:950-981 | ends exactly for rows up to 2^32 - block; strided loop, warp shuffles and the cross-warp step then give the plain sum of squares, for every block of full warps up to 1024 |
| RmsNorm.RmsNormKernel | crates/larql-compute-cuda/src/ops.rs:928-993 | ends exactly for columns up to 2^32 - block (or no rows); every row is then normalised by its own root mean square, rows in any order |
| RmsNorm.RmsNormHeadsKernel | crates/larql-compute-cuda/src/ops.rs:1004-1082 | the same condition on head_dim; on [seq, heads*dim] then exactly the windows that rms_norm writes on [seq*heads, dim] with the per-head weight |
| RmsNorm.NormIsShapeFree | crates/larql-compute-cuda/src/ops.rs:928-1082 | two outputs on the same tensor are equal whatever their block sizes and whichever view they took |
| RmsNorm.NormalisedMeanSquare | crates/larql-compute-cuda/src/ops.rs:981-995 | without a weight the output's mean square times (mean square + eps) is the mean square |
| RmsNorm.RowsAreNormalised | crates/larql-compute-cuda/src/ops.rs:928-1082 | every element of either kernel's output, times the root of its row's plain mean square plus eps, is the input's times offset plus weight (times one without a weight) |
| RmsNorm.WeightScales | crates/larql-compute-cuda/src/ops.rs:987 | with a weight, element j is offset plus weight[j] times the weightless output's, for rms_norm and rms_norm_heads |
| RmsNorm.RowsAreParallel | crates/larql-compute-cuda/src/ops.rs:981-995 | a weightless output is parallel to its row, sign by sign |
| Rope.RopeKernel | crates/larql-compute-cuda/src/ops.rs:1232-1296 | every element of every row is rotated by its row's position, threads in any order |
| Rope.DotIsRelative | crates/larql-compute-cuda/src/ops.rs:1255-1296 | the dot product of a query rotated at p and a key rotated at p' is a function of the unrotated heads and p - p' |
| Rope.ShiftInvariant | crates/larql-compute-cuda/src/ops.rs:1255-1296 | shifting both positions by the same number of rows changes no score |
| Rope.PairNorm | crates/larql-compute-cuda/src/ops.rs:1274-1296 | each rotary pair keeps its norm |
| Rope.PassThrough | crates/larql-compute-cuda/src/ops.rs:1262-1272 | channels from 2*half on are unchanged |
| Rope.ChunkedRotation | crates/larql-compute-cuda/src/ops.rs:1232-1296 | rotating a sequence in chunks with shifted offsets equals rotating it whole |
| Rope.KernelScore | crates/larql-compute-cuda/src/backend/runtime.rs:3077-3150 | over the kernel's outputs: the score of two rows depends on their unrotated heads and on (row + offset - row' - offset') / divisor |
| Rope.PairIsTurned | crates/larql-compute-cuda/src/ops.rs:1274-1296 | over the kernel's output: pair i of a row is turned by ((row + offset) / divisor) * inv_freq[i], both outputs written out; a divisor that is not positive counts as one |
| Rope.UnitPairTurns | crates/larql-compute-cuda/src/ops.rs:1274-1296 | a pair (1, 0) becomes (cos, sin) of that angle |
| Rope.FirstRowStays | crates/larql-compute-cuda/src/ops.rs:1276 | row 0 without an offset stays as it is |
| Rope.DivisorDividesPosition | crates/larql-compute-cuda/src/ops.rs:1274-1276 | rotating with divisor d is rotating without one at any row and offset that add up to (row + offset) / d |
| QuantFormats.PackUnpacks | crates/larql-compute-cuda/src/ops.rs:236-247 | every 12 packed bytes are the packing of the six-bit scales and minima they unpack to |
| QuantFormats.UnpackPacks | crates/larql-compute-cuda/src/ops.rs:236-247 | every eight scales and eight minima of six bits are what their packing unpacks to; with the row above, a bijection |
| QuantFormats.Value6IsSigned | crates/larql-compute-cuda/src/ops.rs:331-337 | the unsigned subtraction of 32 and the cast give the signed difference, in [-32, 31] |
| QuantFormats.PackUnpacks6 | crates/larql-compute-cuda/src/ops.rs:324-337 | every 192 quant bytes are the packing of the 256 values they decode to |
| QuantFormats.UnpackPacks6 | crates/larql-compute-cuda/src/ops.rs:324-337 | every 256 values in [-32, 31] are what their packing decodes to; with the row above, a bijection |
| Q4kKernels.BlockDotDual | crates/larql-compute-cuda/src/ops.rs:572-657 | the fused super-block loop, with its own unpacking order and shared sum of x, performs for each matrix the operations of the single loop in the same order |
| Q4kKernels.MatVec | crates/larql-compute-cuda/src/ops.rs:209-274 | one thread per row, in any order: each output is the accumulation of its row, read at its 32-bit byte offset |
| Q4kKernels.DualMatVec | crates/larql-compute-cuda/src/ops.rs:544-662 | each output is what q4k_matvec leaves for that matrix, with no law of the arithmetic assumed |
| Q4kMeaning.RowMeaning | crates/larql-compute-cuda/src/ops.rs:225-273 | over reals a row's accumulation is the dot product of the dequantised row with the input |
| Q4kMeaning.MatVecMeaning | crates/larql-compute-cuda/src/ops.rs:209-274 | q4k_matvec is dequantise-then-dot for every row whose offset fits 32 bits |
| Q4kMeaning.MatVecExact | crates/larql-compute-cuda/src/ops.rs:221-223 | for all weights and inputs if and only if that offset fits: beyond it another row's bytes are read |
| Q4kMatMul.MatMulKernel | crates/larql-compute-cuda/src/ops.rs:371-442 | one thread per tile, in any order: each cell holds the value of one of the tiles that write it, cell and offsets in 32-bit arithmetic, or what it held if none does |
| Q4kMatMul.LaunchMatMul | crates/larql-compute-cuda/src/backend/runtime.rs:1892-1960 | refused exactly when a size does not match; otherwise such an outcome from zeros, with all sizes and the thread count cut to 32 bits |
| Q4kMatMul.OneTilePerCell | crates/larql-compute-cuda/src/ops.rs:380-386 | every cell of the output is written by exactly one tile if and only if the tile count fits 32 bits |
| Q4kMatMul.CellValue | crates/larql-compute-cuda/src/ops.rs:388-441 | with no law of the arithmetic assumed: where nothing wraps, a cell is the accumulation of its own row over its own column |
| Q4kMatMul.MatMulMeaning | crates/larql-compute-cuda/src/ops.rs:371-442 | over reals, where nothing wraps, every cell is the dequantised row's dot product with that column of the input |
| Q4kMatMul.MatMulExact | crates/larql-compute-cuda/src/backend/runtime.rs:1892-1960 | for all weights, inputs and thread orders if and only if the row length, the tile count, the last row's byte offset and the last column's offset all fit 32 bits (or the rows are empty) |
| Q4kMatMul.ColumnIsMatVec | crates/larql-compute-cuda/src/ops.rs:371-442 | with no law of the arithmetic assumed, where nothing wraps, column s is what q4k_matvec gives for column s of the input |
| Q6kKernel.RowMeaning | crates/larql-compute-cuda/src/ops.rs:306-349 | over reals a row's nested accumulation is the dot product of the dequantised row with the input |
| Q6kKernel.MatVec | crates/larql-compute-cuda/src/ops.rs:298-352 | one thread per row, in any order: each output is that dot product, at the row's 32-bit byte offset |
| Q6kKernel.MatVecExact | crates/larql-compute-cuda/src/ops.rs:310-312 | it is row r's product for all weights and inputs if and only if that offset fits: beyond it another row's bytes are read |
| Q6kKernel.RowLocal | crates/larql-compute-cuda/src/ops.rs:310-312 | a row's product depends on the row's own bytes alone |
| Q4Transpose.MatVec | crates/larql-compute-cuda/src/ops.rs:767-808 | each output is its dequantised row's product with the exact value of the Q8 input |
| Q4Transpose.VecMat | crates/larql-compute-cuda/src/ops.rs:836-880 | each output column is the sum over rows of kept activation times weight |
| Q4Transpose.TransposeOfKept | crates/larql-compute-cuda/src/ops.rs:750-880 | for all shapes and bytes: x against the column kernel's output equals the kept activations against the row kernel's output |
| Q4Transpose.TransposeExact | crates/larql-compute-cuda/src/ops.rs:856-862 | the kernels are transposes on all weights and inputs if and only if each activation is zero or at least 1e-10 in magnitude |
| QuantBlocks.WriteQ4k | crates/larql-compute/src/cpu/ops/q4_common.rs:193-251 | the writer's loops produce a super-block's two halves, packed fields and shared quant bytes |
| QuantBlocks.Q4kReadsBack | crates/larql-compute-cuda/src/ops.rs:225-273 | wherever such a super-block stands in a row, the kernel's dequantised element c is d * scale * quant - dmin * minimum of its group, as written |
| QuantBlocks.Q4kIsLossless | crates/larql-compute/src/cpu/ops/q4_common.rs:129-141 | any 144 bytes are the packing of the fields and quants they hold |
| QuantBlocks.WriteQ6k | crates/larql-compute/src/cpu/ops/q4_common.rs:306-329 | low nibbles in pairs, high bits ored into place, signed scales and half, as one block of 210 bytes |
| QuantBlocks.Q6kReadsBack | crates/larql-compute-cuda/src/ops.rs:306-349 | the kernel's dequantised element c is d * scale * quant as written, signs included |
| QuantBlocks.WriteQ40 | crates/larql-compute/src/cpu/ops/q4_common.rs:83-88 | a Q4_0 block's half and sixteen pairs |
| QuantBlocks.Q40ReadsBack | crates/larql-compute-cuda/src/ops.rs:786-800 | the weight both Q4_0 kernels use is (quant - 8) * d as written |
| Q8Quantiser.QuantizeToQ8 | crates/larql-compute/src/cpu/ops/q4_common.rs:30-47 | every block's scale is a 127th of its largest magnitude, and every quant times the scale is within half a scale of its element; elements beyond the last whole block get zero |
| Q8Quantiser.RoundIsSymmetric | crates/larql-compute/src/cpu/ops/q4_common.rs:42 | rounding treats both signs alike and takes halves away from zero |
| Q8Quantiser.ProductIsNear | crates/larql-compute-cuda/src/ops.rs:767-808 | q4_matvec on a quantised input differs from the exact product by at most the row's weights in magnitude, each times half its block's scale |
| FfnGraphState.GenerationRecurs | crates/larql-compute-cuda/src/ffn_graph.rs:47-58 | a generation number recurs exactly after a multiple of 2^64 resets |
| FfnGraphState.ResidentDecodeArena.LayerStep | crates/larql-compute-cuda/src/ffn_graph_state.rs:23-35 | the in-place residual leaves the post-attention state in the input slot and the layer's result in the output slot |
| FfnGraphState.ResidentDecodeArena.RunLayers | crates/larql-compute-cuda/src/ffn_graph_state.rs:19-40 | for every number of layers the last output slot holds all layers applied in order to the embedding, with no copy between layers |
| FfnGraphState.StreamIsSum | crates/larql-compute-cuda/src/pipeline.rs:431-560 | the hidden state after n layers is the embedding plus, for each layer, its multiplier times its attention branch plus its multiplier times its feed-forward branch |
| GraphLifetime.GraphResources.DropEntry | crates/larql-compute-cuda/src/ffn_graph_state.rs:130-143 | the ordered teardown of one graph (graph, scratch, weights) never leaves a live graph that refers to a released buffer |
| GraphLifetime.GraphResources.Reset | crates/larql-compute-cuda/src/ffn_graph_state.rs:205-211 | every slot emptied, the generation advanced, and the books still balanced |
| GraphLifetime.GraphResources.BuildWorkspace | crates/larql-compute-cuda/src/pipeline.rs:834-852 | a new greedy workspace is allocated before the old one and its norm handle are dropped, the books balanced throughout |
| GraphLifetime.GraphResources.HoldNormWeight | crates/larql-compute-cuda/src/pipeline.rs:871-893 | the workspace takes its own handle on the cached norm weight before the older one goes |
| GraphLifetime.GraphResources.ResetKvCache | crates/larql-compute-cuda/src/backend/mod.rs:1606-1640 | graphs, arena, greedy workspace and weights are released in an order that is safe at every step; nothing stays allocated or captured, and every cursor of the KV cache is zero |
| GraphLifetime.GraphResources.EnsureCapacity | crates/larql-compute-cuda/src/ffn_graph_state.rs:195-200 | an unchanged layer count keeps every graph; a changed one drops all and starts a new epoch |
| GraphLifetime.GraphResources.EnsureArena | crates/larql-compute-cuda/src/pipeline.rs:3249-3272 | with fewer than 2^64 resets since its allocation, the arena is kept exactly when there was none |
| GraphLifetime.GraphResources.UploadWeight | crates/larql-compute-cuda/src/pipeline.rs:3809-3822 | uploading a weight that the cache does not hold adds one handle to the cache's books |
| GraphLifetime.GraphResources.Build | crates/larql-compute-cuda/src/pipeline.rs:3399-3681 | a built graph, with the cached weights and the norm weights uploaded for it, is filed exactly when capture and replay succeed, no reset came since its generation number was read and the slot exists; otherwise it is torn down and the slots are unchanged |
| GraphLifetime.GraphResources.Get | crates/larql-compute-cuda/src/ffn_graph_state.rs:214-216 | returns only graphs captured since the last reset and for the current layer count, all of whose captured buffers are still allocated |
| DecodeLoop.Decoder.GraphLayer | crates/larql-compute-cuda/src/pipeline.rs:3219-3390 | for every combination of failing device calls: the outcome, where the hidden state then is, and the mirror's rows |
| DecodeLoop.Decoder.DecodeLayers | crates/larql-compute-cuda/src/pipeline.rs:438-715 | the loop over the two arena slots refines the transition system on a hidden state that is either carried or held |
| DecodeLoop.RunCompletes | crates/larql-compute-cuda/src/pipeline.rs:438-715 | whether a token is given up depends on the device outcomes alone, layer by layer |
| DecodeLoop.UnbrokenIsIdeal | crates/larql-compute-cuda/src/pipeline.rs:400-409 | if no layer goes wrong, the result is all layers applied in order and one new row in every layer's mirror |
| DecodeLoop.RightExactlyWhenUnbroken | crates/larql-compute-cuda/src/pipeline.rs:3326-3390 | for every layer stack, embedding and mirror if and only if no layer goes wrong: input lost after an attention bail, or a graph failure after attention without a successful fallback |
| DecodeLoop.OneRowEach | crates/larql-compute-cuda/src/pipeline.rs:400-409 | each layer's mirror grows by two rows exactly in the latter case and by one otherwise |
| DecodeLoop.StaleInputExample | crates/larql-compute-cuda/src/pipeline.rs:3363-3390 | two layers and two failures after which the second layer has run on the embedding and its mirror holds two rows |
| KvLockstep.LockstepExactly | crates/larql-compute-cuda/src/backend/mod.rs:1530-1556 | over any attention attempts on a layer: device cache and mirror have as many rows if and only if no row was missed and none is orphaned, and the same rows if and only if besides no orphan was made up for with another row |
| KvLockstep.WhereItStands | crates/larql-compute-cuda/src/backend/mod.rs:1540-1545 | the device is at most one row ahead, and behind for good from the first missed row on |
| KvLockstep.MirrorOfAttempts | crates/larql-compute-cuda/src/pipeline.rs:438-715 | the loop's mirror is the mirror of the attempts along its branches |
| KvLockstep.LayerLockstep | crates/larql-compute-cuda/src/pipeline.rs:438-715 | in a layer that does not go wrong the device rows stay a prefix of the mirror's, and all of them if and only if they were and one of its attempts is taken |
| KvLockstep.SameRowsRead | crates/larql-compute-cuda/src/pipeline.rs:2328-2391 | so it makes no difference whether attention reads the device rows or the uploaded mirror |
| KvLockstep.GenerationLockstep | crates/larql-compute-cuda/src/pipeline.rs:400-409 | over any number of tokens without a broken layer: a layer's device rows are the mirror's if and only if it kept up in every token, and a prefix of them otherwise |
| KvLockstep.TornExample | crates/larql-compute-cuda/src/pipeline.rs:3336-3345 | a broken layer after which both sides hold one row, and different ones |
| BoundaryMetadata.Top2ByLogit | crates/larql-boundary/src/metadata.rs:122-134 | the first index of the maximum, and an index of the largest of the others |
| BoundaryMetadata.ArgMax | crates/larql-boundary/src/metadata.rs:113-120 | the last index of the maximum |
| BoundaryMetadata.Compute | crates/larql-boundary/src/metadata.rs:60-102 | exactly for non-empty logits of equal length, readings that describe them |
| BoundaryMetadata.MarginsAgree | crates/larql-boundary/src/metadata.rs:73-78 | the log-probability margin is the logit margin, never negative, and zero exactly for a tie or a single entry |
| BoundaryMetadata.TopProbIsShare | crates/larql-boundary/src/metadata.rs:73-78 | the reported probability times the plain softmax mass is the exponential of the top logit; it is above zero, and one only for a single entry |
| BoundaryMetadata.SelfAgreement | crates/larql-boundary/src/metadata.rs:80-92 | identical logits on both sides agree if and only if their maximum is unique |
| BoundaryMetadata.RobustExactlyToHalfTheMargin | crates/larql-boundary/src/metadata.rs:17-19 | no change below radius r per entry can move the argmax if and only if the margin is at least 2r |
| BoundaryGate.Apply | crates/larql-boundary/src/gate.rs:106-149 | accepts exactly on agreement (if required), margin and probability outside calibration; the fallback and the fragility flag otherwise |
| BoundaryGate.AcceptedIsRobust | crates/larql-boundary/src/gate.rs:106-140 | acceptance with threshold T > 0 means every logit vector within T/2 per entry has the same unique argmax, which a required check has found on the compressed side too |
| BoundaryGate.AcceptedIsConfident | crates/larql-boundary/src/gate.rs:134-140 | acceptance means the top entry holds at least the threshold's share of the plain softmax mass |
| BoundaryGate.ContinuationIsSound | crates/larql-boundary/src/frame.rs:195-218 | a frame of these readings that is safe to continue from has equal raw and compressed argmax and is safe to route from |
| BoundaryGate.AcceptedFrame | crates/larql-boundary/src/frame.rs:195-204 | the frame of an accepted boundary is safe to continue from if and only if agreement was found |
| BoundaryFrames.ContinuationVersusRouting | crates/larql-boundary/src/frame.rs:195-218 | continuation is routing plus a found agreement and a contract that reaches beyond one token, both ways |
| ManifestRebuild.PadRows | crates/larql-cli/examples/patch_down_proj.rs:150-160 | the buffer holds every row widened to single precision and zero-padded to whole super-blocks |
| ManifestRebuild.PaddedColsIsLeast | crates/larql-cli/examples/patch_down_proj.rs:150 | the padded width is the least multiple of 256 that holds a row |
| ManifestRebuild.PaddedElement | crates/larql-cli/examples/patch_down_proj.rs:150-160 | element (r, c) of the padded matrix is the tensor's widened element, zero beyond its columns |
| ManifestRebuild.WideningKeepsBytes | crates/larql-cli/examples/patch_down_proj.rs:155-157 | a widened value's upper two bytes are the stored two, its lower two are zero |
| ManifestRebuild.Rebuild | crates/larql-cli/examples/patch_down_proj.rs:91-184 | succeeds exactly when every layer's keys, ranges, tensor and quantised length are as the code asserts, and then writes the new entries and bytes of all layers |
| ManifestRebuild.LengthAsserted | crates/larql-cli/examples/patch_down_proj.rs:164-166 | the assertion on the quantised length never fails for a quantiser of 210-byte super-blocks |
| ManifestRebuild.EntriesDropped | crates/larql-cli/examples/patch_down_proj.rs:60 | the new manifest has as many entries as the old one if and only if their number is a multiple of three; otherwise the remainder is missing, the others in place |
| ManifestRebuild.EntriesTile | crates/larql-cli/examples/patch_down_proj.rs:116-176 | the new entries tile the new file: no gap, no overlap, from zero to the end |
| ManifestRebuild.GateAndUpKept | crates/larql-cli/examples/patch_down_proj.rs:115-132 | gate and up matrices read through the new manifest are those read through the old one, names, shapes and formats included |
| ManifestRebuild.DownRows | crates/larql-cli/examples/patch_down_proj.rs:161-176 | row r of the stored down matrix is the quantised padded row r, at exactly the bytes q6k_matvec reads for row r |
| ManifestRebuild.DownRowProduct | crates/larql-compute-cuda/src/ops.rs:310-312 | so the kernel's result for row r involves the quantised values of row r alone, for every number of columns |
| AnyresTiler.OptimalGrid | crates/larql-cli/src/anyres_tiler.rs:29-53 | among all grids of at most the largest valid count: least aspect error, then most tiles; one tile without a choice or without height |
| AnyresTiler.CountsValidExactly | crates/larql-cli/src/anyres_tiler.rs:29-53 | the number of detail tiles is a valid count for every image of some height if and only if the largest count is positive and every number above a quarter of it, up to it, is a valid count; for images of no height too, if and only if one is a valid count besides |
| AnyresTiler.ThreeOfFour | crates/larql-cli/src/anyres_tiler.rs:37-49 | with four as the only valid count, a 300 by 100 image gets three detail tiles |
| AnyresTiler.ResizeRgb | crates/larql-cli/src/anyres_tiler.rs:93-108 | every output pixel is the nearest source pixel, all reads in bounds |
| AnyresTiler.EnlargingRepeats | crates/larql-cli/src/anyres_tiler.rs:93-108 | enlarging k times repeats every pixel k times each way |
| AnyresTiler.SameSizeCopies | crates/larql-cli/src/anyres_tiler.rs:93-108 | resizing to its own size copies an image byte for byte |
| AnyresTiler.Tile | crates/larql-cli/src/anyres_tiler.rs:56-89 | a base tile and the detail tiles of the best grid |
| AnyresTiler.StitchedIsResized | crates/larql-cli/src/anyres_tiler.rs:66-83 | the detail tiles side by side are the image resized to the grid |
| AnyresTiler.StitchedIsSource | crates/larql-cli/src/anyres_tiler.rs:66-83 | an image that already has the grid's size is reproduced exactly |
| WikidataIngest.RunPass1 | knowledge/scripts/ingest_wikidata_dump.py:187-293 | each target holds exactly its first max(1, cap) matches in file order, and the needed set is exactly the entities in those pairs |
| WikidataIngest.CollectedAreFirst | knowledge/scripts/ingest_wikidata_dump.py:187-293 | the collected pairs are stated by lines in file order (entity, else year for P569, P570 and P577, else symbol for P246), at most max(1, cap) of them, and no line up to the last of them, or in the file where there are fewer, states another |
| WikidataIngest.RunPass2 | knowledge/scripts/ingest_wikidata_dump.py:296-353 | each needed entity holds its first good label, if the file has one |
| WikidataIngest.FirstLabelIs | knowledge/scripts/ingest_wikidata_dump.py:296-353 | the first good label is the text of a label line that is good and not empty, with no such line before it; none exactly if there is no such line |
| WikidataIngest.WriteFiles | knowledge/scripts/ingest_wikidata_dump.py:366-403 | a relation's file holds the resolved pairs of the last property with that name and any pairs |
| WikidataIngest.ResolveIs | knowledge/scripts/ingest_wikidata_dump.py:366-403 | a pair resolves to its subject's label and its object's label or text, exactly if the labels exist |
| WikidataIngest.WriteCombined | knowledge/scripts/ingest_wikidata_dump.py:406-426 | likewise for the combined file |
| WikidataIngest.CombinedAgrees | knowledge/scripts/ingest_wikidata_dump.py:366-431 | the combined file, the relation files and the summary agree, name collisions included |
| WikidataIngest.TwoPassesAreOne | knowledge/scripts/ingest_wikidata_dump.py:187-353 | the two passes give each property what one pass over the whole file would |
| WikidataIngest.Ingest | knowledge/scripts/ingest_wikidata_dump.py:187-431 | end to end: every target with a name of its own ends up with exactly its first matches, each side replaced by its first good label |
| Bimodality.JaccardRange | knowledge/scripts/pilot_2a_polysemy_audit_v2.py:111-116 | the similarity lies in [0, 1] |
| Bimodality.JaccardSymmetric | knowledge/scripts/pilot_2a_polysemy_audit_v2.py:111-116 | similarity is symmetric, and one with itself |
| Bimodality.JaccardIsShare | knowledge/scripts/pilot_2a_polysemy_audit_v2.py:111-116 | similarity times the size of the union is the size of the intersection; it is one exactly for equal sets and zero exactly for sets that have bigrams and share none |
| Bimodality.BigramsAre | knowledge/scripts/pilot_2a_polysemy_audit_v2.py:104-108 | the bigrams are exactly the stretches of two characters |
| Bimodality.WidthIs | knowledge/scripts/pilot_2a_polysemy_audit_v2.py:146-153 | a width times the larger of the two mean distances (at least a billionth) is their difference; a lone element has width zero |
| Bimodality.SilhouetteIsMean | knowledge/scripts/pilot_2a_polysemy_audit_v2.py:146-154 | a silhouette is the mean of its elements' widths |
| Bimodality.CombinationsAre | knowledge/scripts/pilot_2a_polysemy_audit_v2.py:140-141 | the enumeration lists exactly the subsets of the given size |
| Bimodality.SidesAlike | knowledge/scripts/pilot_2a_polysemy_audit_v2.py:142-155 | a partition's silhouette does not depend on which side is listed |
| Bimodality.SilhouetteAtMostOne | knowledge/scripts/pilot_2a_polysemy_audit_v2.py:146-155 | an average silhouette is at most one |
| Bimodality.Bimodality | knowledge/scripts/pilot_2a_polysemy_audit_v2.py:131-158 | the larger of zero and the best silhouette over every partition into two non-empty sides, in [0, 1]; zero outside the accepted sizes |
| ShannonWindow.Score | scripts/shannon_score_hf.py:54-79 | for every positive stride below the context, every target from 1 on is scored exactly once, in order, from its own window; no headway for stride zero, an empty window for negative strides |
| ShannonWindow.WindowIsGood | scripts/shannon_score_hf.py:64-66 | a window fits the context and a target sees at least min(position, context - stride) earlier tokens |
| ShannonWindow.RowIsPredecessor | scripts/shannon_score_hf.py:72-75 | the row that scores a target is its predecessor's |
| ShannonWindow.NoHeadway | scripts/shannon_score_hf.py:63-79 | with stride zero every turn, however many there were, finds the first token as its window, scores nothing and ends where it began |
| Base64.DecodeInvertsEncode | crates/larql-cli/src/utils.rs:5-31 | the decoder of section 4 of RFC 4648 inverts the encoder on every byte sequence |
| Base64.Encode | crates/larql-cli/src/utils.rs:5-31 | the loop over chunks of three produces that encoding |
| Base64.TestVectors | crates/larql-cli/src/utils.rs:5-31 | the encodings of f, fo and foo in section 10 of RFC 4648 |
| Base64.AlphabetIs | crates/larql-cli/src/utils.rs:6 | the alphabet of table 1 of RFC 4648 |
| Base64.EncodingLength | crates/larql-cli/src/utils.rs:8 | four characters per three bytes begun |
| Base64.PaddingPlaces | crates/larql-cli/src/utils.rs:18-27 | padding stands exactly in the one or two last places that have no sextet |

## Left out

- Blocks of one grid run one after another in any order; their memory accesses do not interleave. Within a barrier interval the tree's loads and stores do interleave; other intervals have disjoint footprints per thread and run thread by thread.
- Float rounding: results over `real` say nothing about it, and reordering of float additions is invisible in them.
- Driver calls, stream capture, uploads, allocation failures and poisoned locks, beyond the failure flags of `DecodeLoop` and the success flags of `GraphLifetime`.
- Host-side truncation of sizes above 32 bits, except in the launch of q4k_matmul: elsewhere kernel arguments are taken as 32-bit values. 64-bit products of sizes do not wrap.
- GreedyHead.LaunchPartial: at most 2^32 - 1 scores; the launcher truncates larger counts.
- GreedyHead.LaunchFinal: from distinct ids among the partials, which is what the first stage leaves; the launcher does not check it.
- TokenPick.PickToken: hidden sizes and row counts below 2^32, which the launchers truncate; the workspace that is left behind after a refused or hanging launch is not followed.
- GreedyHead.GreedyChain: covers at most 2^32 - 1 scores, because the second launch passes its count as a 32-bit value; the hidden-state normalisation and the lm-head product before it are in TokenPick.
- Q4kMatMul.LaunchMatMul: a thread count that wraps to zero leaves the output's zeros here; a driver may refuse the empty grid instead. The block size is any positive number, and a tile number is cut to 32 bits.
- Attention.LaunchDecode: needs HeadsFit, that every query head's keys lie within its row, which no launcher or caller checks (Attention.HeadsFitExactly says when it holds); what reads beyond a row or a buffer return is not modelled.
- Attention.LaunchPrefill: likewise; and for at least one query head, an empty grid being the driver's matter.
- KvAgreement.DecodeEqualsPrefill: likewise needs HeadsFit.
- KvAgreement.ResidentDecode: likewise needs HeadsFit.
- RmsNorm.BlockSumSquares: for block sizes that do not divide 2^32, which no launch has, only rows whose index does not wrap.
- KvCache.AppendedRows: says nothing about rows appended beyond the cursor, where the layer holds what the buffers held there (KvCache.LayerKVCache.Append still says what they hold).
- KvAgreement.Run: allocation failures of the driver are not steps of the run; truncation of the cache (backend/mod.rs:1674) is not modelled.
- Rope.RopeKernel: needs at least twice as many channels as rotated pairs, which the launcher computes; how the inverse frequencies are computed is not modelled.
- GraphLifetime.GraphResources.Build: the gate, up and down weights are already in the cache; the captured launches are not modelled, only the addresses they capture.
- DecodeLoop.Decoder.DecodeLayers: the graph, device and host paths of a layer compute the same functions, and attention is a function of the mirror's rows; the device cache beside it is KvLockstep.
- Attention in the graph path, the resident and host blocks themselves and mixture-of-experts layers are functions of the layer.
- The q6k_matmul kernel, the dense matrix-vector kernels, activations and residual addition as kernels of their own: loops of the same shape or element-wise.
- Plan keys, plan eligibility and kernel node counts (ffn_graph.rs): case distinctions without state.
- BoundaryGate.AcceptedIsRobust: the compressed side's agreement is part of it only when the configuration requires it.
- Frame fields that no predicate reads, serialisation and the residual codec.
- QuantBlocks.WriteQ4k: how quantize_q4_k, quantize_q6_k and quantize_q4_0 choose scales and quants, and the encoding of halves, are not modelled; what is written is taken as given. In ManifestRebuild the quantiser is any function from 256 values to 210 bytes.
- JSON access, backups and writing of files.
- AnyresTiler.OptimalGrid: which of several grids with equal error and equal size is taken is not stated.
- Line parsing, the extraction patterns and the test for good labels of the ingest: their results per line are inputs.
- WikidataIngest.Ingest: the per-relation guarantee is for relations whose file name no other target shares; for shared names see WikidataIngest.CombinedAgrees.
- String normalisation before bigrams is a parameter; pairwise_coherence, the cutoff search and the classifier of the polysemy audit are not modelled.
- The language model of the window scorer is a parameter; throughput figures and reports are not modelled.
