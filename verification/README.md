# Random block masking: a Dafny model

This project models the block-masking core of NeMo's self-supervised speech pre-training, `nemo/collections/asr/modules/ssl_modules/masking.py`:

* `RandomBlockMasking` decides which time steps of each sequence in a batch to mask. It has two planners:
  * a grid planner without overlap (`forward_without_overlap`);
  * a planner with random, possibly overlapping starts (`forward_with_overlap`).

  It then merges the per-sequence positions into one set of `(batch, time)` rows. Finally it scatters the mask embedding into a copy of the features and writes 1.0 into a zero mask at the same places.
* `ConvFeatureMaksingWrapper` runs an upstream feature extractor and masks its output when masking is enabled. It caches the unmasked features and the mask of the last call.

The model is functional. Features are `seq<seq<seq<T>>>` indexed `[batch][feature][time]`. The element type `T` is generic. The mask is a tensor of `real`.

The floats `mask_prob` and `max_mask_ratio` are exact rationals (`Config.Ratio`). This makes the fallback test and the patch-count ceiling exact.

Every random draw is an explicit argument (`Planner.Draw`), and preconditions fix its range:
* the grid offset lies in `[0, block_size)`;
* the `randperm` result is a permutation of its range;
* the binomial patch count is at most its trial count.

The planners take the permutation's prefix themselves. That the prefix is long enough is therefore proved, not assumed.

The wrapper's state is an immutable record: the enable flag plus the two cached values. `pre_encode` is an arbitrary function parameter.

Modules:

| module | file | contents |
|---|---|---|
| `Outcomes` | outcomes.dfy | `Option`, `Result`, `MaskError` |
| `Config` | config.dfy | `Ratio`, `MaskConfig`, the constructor defaults |
| `Spans` | spans.dfy | blocks `[start, end)`, `Span` (`arange`), `Covered` (concatenate + `unique`), disjoint-union size |
| `Planner` | planner.dfy | fallback test, patch count, block shrinking, grid planner, overlap planner |
| `BatchMask` | batch.dfy | tagging with the batch index, merge, `index_put` scatter, `forward` |
| `MaskingWrapper` | wrapper.dfy | wrapper state, `set_masking_enabled`, getters, `forward` |

Behaviour of the code that the model keeps, even where a reader might expect otherwise:

* **Grid fallback is not clamped.** When `block_size >= len * max_mask_ratio`, the grid planner masks exactly `[0, 8)`, even for sequences shorter than 8 and for length 0. Only the overlap planner clips the fallback block to `[0, min(8, len))`. See `Planner.NonOverlapFallback` and `Planner.EmptySequence`.
* **Shrinking does not shrink the offset range.** When the block shrinks to `len / (n + 1)`, the grid offset is still drawn from `[0, block_size)`. The proved bound is therefore only `t < len + (block_size - bs)`. Two lemmas exhibit an overrun:
  * `Planner.ShrinkOverrunWitness` on a small configuration;
  * `Planner.DefaultConfigOverrun` with the constructor defaults on a sequence of length 100, where the block shrinks to 33 and position 112 is masked.

  `Planner.NonOverlapBoundWithEffectiveOffset` shows that an offset below the shrunk width would keep every position inside the sequence.
* **The overlap clamp never binds outside the fallback.** Every start is below `len - block_size`, so every block has the full width (`Planner.OverlapFullWidth`).
* **The cached feature is written even when masking is off.** `curr_feat` is cached on every call.

## Model

| member | source | states |
|---|---|---|
| Planner.ShortSequenceExact | nemo/collections/asr/modules/ssl_modules/masking.py:105-105 | the integer fallback test holds iff `block_size >= len * max_mask_ratio` over the rationals (the same test is repeated at line 154) |
| Planner.CeilDivIsCeiling | nemo/collections/asr/modules/ssl_modules/masking.py:112-112 | rounded-up division gives the least `q` with `q * d >= x` |
| Planner.NumPatchesIsCeiling | nemo/collections/asr/modules/ssl_modules/masking.py:112-112 | the patch count is the least `n` with `n * block_size >= len * mask_prob` |
| Planner.EffectiveBlockFits | nemo/collections/asr/modules/ssl_modules/masking.py:114-116 | `n + 1` effective blocks always fit in `len`; without shrinking the width is `block_size`; a shrunk width is the largest that fits and is below `block_size` |
| Planner.SlotsSuffice | nemo/collections/asr/modules/ssl_modules/masking.py:117-118 | the slot range `len / bs - 1` is at least the patch count, so the permutation prefix yields `n` distinct slots |
| Planner.NonOverlapAlwaysDefined | nemo/collections/asr/modules/ssl_modules/masking.py:115-117 | with `block_size >= 2`, `mask_prob <= 1` and `max_mask_ratio <= 1`, the shrunk width is never 0, so line 117 never divides by zero |
| Planner.NonOverlapBlocks | nemo/collections/asr/modules/ssl_modules/masking.py:104-123 | the grid planner yields one block in the fallback and exactly `ceil(len * mask_prob / block_size)` blocks otherwise |
| Planner.NonOverlapFallback | nemo/collections/asr/modules/ssl_modules/masking.py:105-123 | in the fallback the grid planner masks exactly `[0, 8)`, not clipped to the sequence |
| Planner.NonOverlapGrid | nemo/collections/asr/modules/ssl_modules/masking.py:112-122 | outside the fallback every block has the effective width and starts at the shared offset plus a multiple of that width, at a slot in `[0, len / bs - 1)` |
| Planner.NonOverlapDisjoint | nemo/collections/asr/modules/ssl_modules/masking.py:118-123 | grid blocks at the distinct permutation slots are pairwise disjoint |
| Planner.NonOverlapCount | nemo/collections/asr/modules/ssl_modules/masking.py:118-126 | outside the fallback the deduplicated position set has exactly `n * bs` elements |
| Planner.NonOverlapBound | nemo/collections/asr/modules/ssl_modules/masking.py:113-123 | every grid position is below `len + (block_size - bs)`, and below `len` when the block was not shrunk |
| Planner.NonOverlapBoundWithEffectiveOffset | nemo/collections/asr/modules/ssl_modules/masking.py:113-123 | an offset below the effective width would keep every grid position below `len` |
| Planner.ShrinkOverrunWitness | nemo/collections/asr/modules/ssl_modules/masking.py:113-123 | a valid draw on a shrunk grid masks the position `len` itself |
| Planner.DefaultConfigOverrun | nemo/collections/asr/modules/ssl_modules/masking.py:112-123 | with the constructor defaults and length 100 the block shrinks to 33, and offset 47 masks position 112 |
| Planner.EmptySequence | nemo/collections/asr/modules/ssl_modules/masking.py:104-110 | length 0 always takes the fallback; the grid planner then masks `[0, 8)` and the overlap planner nothing |
| Planner.NonOverlapZeroProb | nemo/collections/asr/modules/ssl_modules/masking.py:112-120 | with `mask_prob = 0` the grid planner places no block outside the fallback |
| Planner.StartCount | nemo/collections/asr/modules/ssl_modules/masking.py:161-161 | the number of candidate starts is `len - block_size` when that is positive and 0 otherwise: with it, `count + block_size` covers `len` exactly, or `count` is 0 |
| Planner.OverlapBlocks | nemo/collections/asr/modules/ssl_modules/masking.py:152-167 | overlap blocks end at or before `len`; outside the fallback there are `numPatches <= max(0, len - block_size)` blocks with distinct starts below that count |
| Planner.OverlapFallback | nemo/collections/asr/modules/ssl_modules/masking.py:154-167 | in the fallback the overlap planner masks exactly `[0, min(8, len))` |
| Planner.OverlapInBounds | nemo/collections/asr/modules/ssl_modules/masking.py:160-167 | every position the overlap planner masks lies in `[0, len)` |
| Planner.OverlapFullWidth | nemo/collections/asr/modules/ssl_modules/masking.py:161-166 | outside the fallback the clamp to `len` never shortens a block |
| Planner.OverlapZeroPatches | nemo/collections/asr/modules/ssl_modules/masking.py:162-165 | a zero binomial draw contributes no block |
| Spans.Span | nemo/collections/asr/modules/ssl_modules/masking.py:123-123 | `arange(s, e)` holds exactly the `t` with `s <= t < e`, `e - s` of them |
| Spans.Covered | nemo/collections/asr/modules/ssl_modules/masking.py:123-126 | a position is in the deduplicated union iff some block contains it |
| Spans.DisjointCoveredSize | nemo/collections/asr/modules/ssl_modules/masking.py:123-126 | for pairwise disjoint blocks, `unique` removes nothing: the union has the total width |
| BatchMask.Zeros | nemo/collections/asr/modules/ssl_modules/masking.py:101-101 | the starting mask has the feature shape and is 0 everywhere |
| BatchMask.TagSize | nemo/collections/asr/modules/ssl_modules/masking.py:124-125 | prepending one batch index keeps the number of rows |
| BatchMask.Merge | nemo/collections/asr/modules/ssl_modules/masking.py:124-129 | row `(b, t)` is in the merged set iff `b` is a sequence and `t` one of its positions |
| BatchMask.MergeSize | nemo/collections/asr/modules/ssl_modules/masking.py:124-129 | the merged rows number the per-sequence position counts added up: no rows of different sequences collide |
| BatchMask.MergeEmpty | nemo/collections/asr/modules/ssl_modules/masking.py:120-128 | sequences without positions contribute no row |
| BatchMask.Scatter | nemo/collections/asr/modules/ssl_modules/masking.py:128-136 | the scatter fails iff some row is outside the tensor; otherwise both outputs keep the shape, and with no row the input comes back with an all-zero mask |
| BatchMask.ScatterAt | nemo/collections/asr/modules/ssl_modules/masking.py:133-134 | at a selected `(b, d, t)` the output holds `emb[d]` and the mask 1; elsewhere the input value and 0 |
| BatchMask.MaskRecoversIndices | nemo/collections/asr/modules/ssl_modules/masking.py:133-133 | reading back the 1-entries of any feature row of the mask gives exactly the selected rows |
| BatchMask.BatchIndices | nemo/collections/asr/modules/ssl_modules/masking.py:104-129 | the batch rows are exactly the pairs `(b, t)` with `t` planned for sequence `b` |
| BatchMask.BatchIndicesSize | nemo/collections/asr/modules/ssl_modules/masking.py:124-129 | the batch row count is the sum of the per-sequence position counts |
| BatchMask.RandomBlockMask | nemo/collections/asr/modules/ssl_modules/masking.py:77-89 | `forward` dispatches on `allow_overlap`; successful outputs have the input's shape |
| BatchMask.RandomBlockMaskFails | nemo/collections/asr/modules/ssl_modules/masking.py:128-136 | `forward` fails iff some planned position lies beyond the time axis |
| BatchMask.RandomBlockMaskContents | nemo/collections/asr/modules/ssl_modules/masking.py:172-180 | on success `(b, d, t)` holds `emb[d]` and mask 1 iff `t` was planned for sequence `b`; otherwise the input value and mask 0 |
| BatchMask.OverlapNeverFails | nemo/collections/asr/modules/ssl_modules/masking.py:152-180 | the overlap variant never indexes out of range when every length fits in the time axis |
| BatchMask.NonOverlapSucceedsWhen | nemo/collections/asr/modules/ssl_modules/masking.py:104-136 | the grid variant stays in range when every sequence either falls back with a time axis of at least 8, or is unshrunk and fits |
| BatchMask.NoBlocksNoOp | nemo/collections/asr/modules/ssl_modules/masking.py:128-136 | when no sequence plans a block, `forward` returns the input features and an all-zero mask |
| BatchMask.ZeroProbNoOp | nemo/collections/asr/modules/ssl_modules/masking.py:112-136 | with `mask_prob = 0` and no short sequence, the grid variant is the no-op |
| MaskingWrapper.SetMaskingEnabled | nemo/collections/asr/modules/ssl_modules/masking.py:216-217 | sets the flag and leaves both cached values unchanged |
| MaskingWrapper.Forward | nemo/collections/asr/modules/ssl_modules/masking.py:201-214 | lengths pass through; the extractor's features are always cached; the flag is unchanged. When disabled: the output is the features and the cached mask is all zeros. When enabled: it succeeds iff masking succeeds |
| MaskingWrapper.FreshWrapperDoesNotMask | nemo/collections/asr/modules/ssl_modules/masking.py:197-223 | a new wrapper returns the features unmasked; its getters then report those features and a zero mask |
| MaskingWrapper.EnabledForwardIsMasking | nemo/collections/asr/modules/ssl_modules/masking.py:207-210 | with masking on, the call returns the masking module's features and caches its mask |
| MaskingWrapper.EnabledForwardCachesMask | nemo/collections/asr/modules/ssl_modules/masking.py:205-223 | after enabling, the getters report the unmasked features, and a mask that is 1 exactly at the planned positions where the output holds the embedding |

## Left out

- Tensor layout: `permute`, `transpose`, `unbind` and dtypes are not modelled. Features are indexed `[batch][feature][time]` throughout. In the source, the mask the wrapper caches when masking is off is `zeros_like` of the untransposed features, so the two branches cache masks of different layouts. The model does not distinguish them.
- Random number generation: `randint`, `randperm` and `binomial` are replaced by argument oracles with range preconditions. The binomial shape of the overlap patch count is not modelled.
- Floating point: `mask_prob` and `max_mask_ratio` are exact rationals. Float rounding of `len * mask_prob`, of `ceil` and of the ratio comparison is not modelled.
- Learned-parameter lifecycle: `nn.Parameter` creation, `normal_` initialisation, `mask_value`, `freeze` and gradients (`detach`) are not modelled. The embedding is a given vector of feature length.
- `input_types` and `output_types`, the `NeuralModule` base class, and the constructor's storage of its arguments are not modelled.
- The upstream `pre_encode` module is an uninterpreted function parameter.
- Planner.NonOverlapBlocks: the crash at line 117 (`len / bs` with `bs = 0`, e.g. `block_size = 1`, `mask_prob = 1`, `len = 2`) is excluded by the precondition `NonOverlapDefined`. That precondition holds exactly when the code does not divide by zero. `NonOverlapAlwaysDefined` shows it always holds for `block_size >= 2` with probability and ratio at most 1.
- Config.ValidConfig: a `block_size` of 0 is excluded. Only the grid variant's non-fallback path fails on it: the ceiling at line 112 divides by 0, and line 113 draws from the empty range of `randint(0, 0)`. The grid fallback still masks `[0, 8)`. The overlap variant succeeds with a width of 0: its fallback is the clipped `[0, min(8, len))`, and every other drawn block `arange(s, s)` is empty, so it masks no position outside the fallback. The model does not cover these width-0 runs.
- BatchMask.Scatter: the embedding must have exactly the feature length. Broadcasting a one-element embedding, and the error for any other length, are not modelled.
- MaskingWrapper.Forward: the masking module is fixed to `RandomBlockMasking` (`BatchMask.RandomBlockMask`). The source accepts any `nn.Module` there (lines 188 and 209). The caller supplies the configuration, the random draws and the embedding.
- MaskingWrapper.Forward: if masking fails, the source has already updated `curr_feat` before the exception. The model's error result carries no state.
- The order of rows produced by `unique` and `cat` is not modelled: the index set is a set. `index_put` writes the same value at every selected row, so the order does not change the result.
