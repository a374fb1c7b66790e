# wav2vec 2.0 feature masker, in Dafny

This project models the feature masker of fairseq2's wav2vec 2.0 model
(`src/fairseq2/models/wav2vec2/masker.py`), which implements the masking of
section 3.1 of Baevski et al., 2020, "wav2vec 2.0". A `Wav2Vec2Masker` holds
four hyperparameters and a learned mask embedding of length `model_dim`. Its
forward pass takes a batch of feature sequences of shape (N, S, M) and
changes it in place. First it overwrites every time step that a temporal
mask selects with the embedding. Then, only when the maximum spatial mask
probability is positive, it zeroes every feature channel that a spatial
mask selects, at every time step. The free function `apply_temporal_mask`
gathers the masked vectors of a batch in row-major order and splits them
into N rows.

Files:

- `wrappers.dfy` (module `Wrappers`): `Option` and `Result`.
- `masker.dfy` (module `Masker`): the class `Wav2Vec2Masker<T>` with its
  constructor and `Forward`, the factory `Create` that carries the
  constructor's validation, and the two boolean-index assignments of the
  forward pass as in-place methods over an `array3`.
- `temporal_mask.dfy` (module `TemporalMask`): `ApplyTemporalMask` as a
  pure function (gather, then split into rows) and the lemmas about it.

Modelling choices:

- The batch is an `array3<T>` changed in place, as the source changes the
  caller's tensor. Feature values have an arbitrary type `T`. The value the
  source writes as `0.0` is the `zero` parameter of `Forward`.
- The random span sampler `compute_mask` is imported from a file that is not
  part of this model. `Forward` takes the masks it returns as parameters:
  the temporal mask of shape (N, S) and, as an `Option`, the spatial mask of
  shape (N, M). The spatial mask is required, and read, only when
  `maxSpatialMaskProb > 0.0`, which mirrors the `assert ... is not None`
  checks at masker.py lines 104 and 118.
- The random uniform initialisation of the embedding is the parameter
  `uniformSample: nat -> T`: element `i` of the embedding is
  `uniformSample(i)`.
- Probabilities are `real`. The source compares them only with `0.0`.
- `Create` and the constructor keep the source's defaults:
  `temporalSpanLen := 10`, `maxTemporalMaskProb := 0.65`,
  `spatialSpanLen := 10` and `maxSpatialMaskProb := 0.0`, so spatial
  masking is off unless the caller asks for it. `uniformSample` comes right
  after `modelDim` because it has no default.
- Construction returns a `Result`. `ZeroTemporalMaskProb` is the
  `ValueError` at line 55. `NegativeModelDim` is the error that allocating
  an embedding of negative length raises at line 61, which runs after the
  probability check.
- `apply_temporal_mask` fails with `ShapeMismatch` when the mask does not
  have the shape of the first two axes of `x` (boolean indexing refuses it).
  It fails with `CannotSplitIntoRows` when the number of masked vectors
  does not divide by N, or when N is 0 (the inferred row length is then
  ambiguous).

Behaviour of the code worth noting:

- The constructor rejects only a maximum temporal mask probability of
  exactly `0.0` (masker.py line 54), although its error message at line 55
  says the value "must be greater than 0". Negative values are accepted.
- Span lengths and the spatial probability are stored without any check.
- `apply_temporal_mask` does not need equal per-row mask counts. Only the
  total must divide by N, so masked vectors can move into another row
  (`RowsCanMix`). When every row has the same count, each output row holds
  exactly its own row's masked vectors (`EqualCountsKeepRows`).

## Model

| member | source | states |
|---|---|---|
| `Masker.Create` | src/fairseq2/models/wav2vec2/masker.py:27-65 | with the source's defaults for the four hyperparameters, construction fails with the zero-probability error exactly when `maxTemporalMaskProb == 0.0`, and any other value (negative ones too) passes that check; it succeeds exactly when the probability is nonzero and `modelDim >= 0`; on success all four hyperparameters are stored unchanged and the embedding is a fresh array of length `modelDim` |
| `Masker.Wav2Vec2Masker.constructor` | src/fairseq2/models/wav2vec2/masker.py:27-71 | with the same defaults, stores the four hyperparameters as given and allocates a fresh embedding of length `modelDim` whose elements are the uniform samples |
| `Masker.Wav2Vec2Masker.Forward` | src/fairseq2/models/wav2vec2/masker.py:92-124 | returns the same batch object (so the same shape) and the same temporal mask; every spatially masked channel is zero at every time step, even where the embedding was written; every temporally masked step that is not spatially masked holds the embedding; every other position keeps its value; with spatial probability `<= 0` the result depends only on the temporal mask and the embedding; the embedding is not modified |
| `Masker.FillMaskedSteps` | src/fairseq2/models/wav2vec2/masker.py:106 | after `seqs[mask] = value`, each (n, s) selected by the (N, S) mask holds the vector `value`, and every other position is unchanged |
| `Masker.ExpandOverTime` | src/fairseq2/models/wav2vec2/masker.py:120 | the (N, M) spatial mask broadcast over time: shape (N, S, M), and the mask at (n, s) is row n of the spatial mask for every s |
| `Masker.FillMaskedElements` | src/fairseq2/models/wav2vec2/masker.py:122 | after `seqs[mask] = value`, each position selected by the (N, S, M) mask holds `value`, and every other position is unchanged |
| `TemporalMask.ApplyTemporalMask` | src/fairseq2/models/wav2vec2/masker.py:131-133 | succeeds exactly when the mask has the shape of `x`'s first two axes, N > 0 and the number of masked vectors divides by N; for N > 0 it fails with the shape error exactly when the shapes differ; on success it returns N rows of equal length (count / N) whose row-major concatenation is the gathered masked vectors |
| `TemporalMask.Select` | src/fairseq2/models/wav2vec2/masker.py:133 | selecting with one mask row yields as many elements as the row has set bits |
| `TemporalMask.Gather` | src/fairseq2/models/wav2vec2/masker.py:133 | `x[mask]` yields as many vectors as the mask has set bits in total |
| `TemporalMask.Chunk` | src/fairseq2/models/wav2vec2/masker.py:133 | `unflatten(0, (n, k))` of `n * k` elements yields `n` rows of `k` elements each |
| `TemporalMask.ConcatChunk` | src/fairseq2/models/wav2vec2/masker.py:133 | splitting into rows and flattening again gives back the gathered sequence |
| `TemporalMask.ChunkConcat` | src/fairseq2/models/wav2vec2/masker.py:133 | flattening `n` rows of `k` elements and splitting again gives back the rows, so the split is the inverse of flattening |
| `TemporalMask.GatherIsFlatSelect` | src/fairseq2/models/wav2vec2/masker.py:133 | row-major order: gathering row by row equals flattening batch and mask and then selecting from the flat sequence |
| `TemporalMask.SelectAt` | src/fairseq2/models/wav2vec2/masker.py:133 | the masked element at index i of a row lands at the index equal to the number of set bits before i, so selection keeps order |
| `TemporalMask.GatherAt` | src/fairseq2/models/wav2vec2/masker.py:133 | every masked `x[n][s]` appears in the gathered sequence, after the masked vectors of the earlier rows and of the earlier steps of row n |
| `TemporalMask.EqualCountsKeepRows` | src/fairseq2/models/wav2vec2/masker.py:131-133 | when every mask row selects the same number of vectors, output row n is exactly the masked vectors of input row n |
| `TemporalMask.RowsCanMix` | src/fairseq2/models/wav2vec2/masker.py:131-133 | with per-row counts 3 and 1 on a batch of two rows, the result is `[[1, 2], [3, 4]]`: the vector `3` of input row 0 ends up in output row 1 |

## Left out

- The span sampler `compute_mask` (random span sampling, `min_num_spans=2`,
  honouring the per-row lengths `seq_lens`) is not part of this model. Its
  masks are parameters of `Forward`, and `seq_lens`, which only the sampler
  reads, is dropped from `Forward`. Properties about the number of masked
  spans per row depend on the sampler and are not stated.
- `reset_parameters` draws the embedding from a uniform distribution. That
  randomness is the `uniformSample` parameter.
- `extra_repr` only formats the hyperparameters as text.
- Device and dtype placement, autograd, and optimizer updates of the
  embedding are not modelled. No method of the model writes to the
  embedding.
- Floating point is not modelled. Probabilities are exact reals, so a NaN
  probability (which passes the zero check and disables spatial masking)
  has no counterpart.
- Masker.Wav2Vec2Masker.Forward: requires the batch's last axis to equal the
  embedding length, as the docstring states. Torch would also broadcast an
  embedding of length 1 over any M; the model does not.
- Masker.Wav2Vec2Masker.Forward: requires masks of the stated shapes, which
  the sampler always returns. A mis-shaped mask, which torch would refuse
  with an index error, is not modelled.
- TemporalMask.ApplyTemporalMask: a batch with zero rows carries no column
  count as a sequence of rows, so a (0, S) batch with a (0, S') mask, S'
  different from S, is not seen as a shape mismatch. Torch raises its
  mask-shape index error there; the model returns `CannotSplitIntoRows`.
  Both are failures, but of different kinds.
- `examples/train_mt.py` is orchestration over external libraries (command
  line, distributed setup, tokenizer training, training loop) and is not
  part of this model.
- `tests/data/test_string.py` tests a native string type whose
  implementation is not part of this model.
- `src/fairseq2/native/data/memory_mapper.h` only declares a file
  memory-mapper with a descriptor cache (file I/O) and is not part of this
  model.
