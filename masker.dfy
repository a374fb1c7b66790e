/** The wav2vec 2.0 feature masker (section 3.1 of Baevski et al., 2020,
    "wav2vec 2.0"): it overwrites masked time steps of a batch of feature
    sequences with a learned embedding and, when enabled, zeroes masked
    feature channels across all time steps, in place.

    The random span sampler that produces the two boolean masks is not part
    of this model; `Forward` receives the masks it would return. Feature
    values are of an arbitrary type `T`; the value the source writes as `0.0`
    is passed as `zero`. */
module Masker {
  import opened Wrappers
  import TemporalMask

  /** Why construction fails: the zero temporal mask probability that the
      constructor rejects, or a negative embedding length that the tensor
      allocation rejects. */
  datatype ConfigError = ZeroTemporalMaskProb | NegativeModelDim

  /** (n, s, m) is a position of the (N, S, M) batch `seqs`. */
  predicate InShape<T>(seqs: array3<T>, n: int, s: int, m: int)
  {
    0 <= n < seqs.Length0 && 0 <= s < seqs.Length1 && 0 <= m < seqs.Length2
  }

  /** `seqs[mask] = value` for a mask over the first two axes of `seqs`:
      every masked (n, s) receives the vector `value`; everything else keeps
      its value. */
  method FillMaskedSteps<T>(seqs: array3<T>, mask: seq<seq<bool>>, value: array<T>)
    requires TemporalMask.IsMatrix(mask, seqs.Length0, seqs.Length1)
    requires value.Length == seqs.Length2
    modifies seqs
    ensures forall n, s, m :: 0 <= n < seqs.Length0 && 0 <= s < seqs.Length1 && 0 <= m < seqs.Length2 ==>
              seqs[n, s, m] == if mask[n][s] then value[m] else old(seqs[n, s, m])
  {
    for n := 0 to seqs.Length0
      invariant forall i, s, m :: 0 <= i < seqs.Length0 && 0 <= s < seqs.Length1 && 0 <= m < seqs.Length2 ==>
                  seqs[i, s, m] == if i < n && mask[i][s] then value[m] else old(seqs[i, s, m])
    {
      for s := 0 to seqs.Length1
        invariant forall i, t, m :: 0 <= i < seqs.Length0 && 0 <= t < seqs.Length1 && 0 <= m < seqs.Length2 ==>
                    seqs[i, t, m] == if (i < n || (i == n && t < s)) && mask[i][t] then value[m] else old(seqs[i, t, m])
      {
        if mask[n][s] {
          for m := 0 to seqs.Length2
            invariant forall i, t, j :: 0 <= i < seqs.Length0 && 0 <= t < seqs.Length1 && 0 <= j < seqs.Length2 ==>
                        seqs[i, t, j] == if (i < n || (i == n && t < s) || (i == n && t == s && j < m)) && mask[i][t]
                                         then value[j] else old(seqs[i, t, j])
          {
            seqs[n, s, m] := value[m];
          }
        }
      }
    }
  }

  /** `mask.unsqueeze(1).expand(-1, seqLen, -1)`: the (N, M) mask repeated
      along a new time axis of length `seqLen`. */
  function ExpandOverTime(mask: seq<seq<bool>>, seqLen: nat): (r: seq<seq<seq<bool>>>)
    ensures |r| == |mask|
    ensures forall n :: 0 <= n < |mask| ==> |r[n]| == seqLen
    ensures forall n, s :: 0 <= n < |mask| && 0 <= s < seqLen ==> r[n][s] == mask[n]
  {
    seq(|mask|, n requires 0 <= n < |mask| => seq(seqLen, _ => mask[n]))
  }

  /** `seqs[mask] = value` for a mask of the full shape of `seqs`: every
      masked (n, s, m) receives `value`; everything else keeps its value. */
  method FillMaskedElements<T>(seqs: array3<T>, mask: seq<seq<seq<bool>>>, value: T)
    requires |mask| == seqs.Length0
    requires forall n :: 0 <= n < |mask| ==> |mask[n]| == seqs.Length1
    requires forall n, s :: 0 <= n < |mask| && 0 <= s < |mask[n]| ==> |mask[n][s]| == seqs.Length2
    modifies seqs
    ensures forall n, s, m :: 0 <= n < seqs.Length0 && 0 <= s < seqs.Length1 && 0 <= m < seqs.Length2 ==>
              seqs[n, s, m] == if mask[n][s][m] then value else old(seqs[n, s, m])
  {
    for n := 0 to seqs.Length0
      invariant forall i, s, m :: 0 <= i < seqs.Length0 && 0 <= s < seqs.Length1 && 0 <= m < seqs.Length2 ==>
                  seqs[i, s, m] == if i < n && mask[i][s][m] then value else old(seqs[i, s, m])
    {
      for s := 0 to seqs.Length1
        invariant forall i, t, m :: 0 <= i < seqs.Length0 && 0 <= t < seqs.Length1 && 0 <= m < seqs.Length2 ==>
                    seqs[i, t, m] == if (i < n || (i == n && t < s)) && mask[i][t][m] then value else old(seqs[i, t, m])
      {
        for m := 0 to seqs.Length2
          invariant forall i, t, j :: 0 <= i < seqs.Length0 && 0 <= t < seqs.Length1 && 0 <= j < seqs.Length2 ==>
                      seqs[i, t, j] == if (i < n || (i == n && t < s) || (i == n && t == s && j < m)) && mask[i][t][j]
                                       then value else old(seqs[i, t, j])
        {
          if mask[n][s][m] {
            seqs[n, s, m] := value;
          }
        }
      }
    }
  }

  class Wav2Vec2Masker<T> {
    /** Length of each temporal mask span. */
    const temporalSpanLen: int
    /** Maximum probability of masking a time step; never exactly zero. */
    const maxTemporalMaskProb: real
    /** The learned vector written into masked time steps; its length is the
        model dimensionality. Only an optimizer outside this model changes its
        contents. */
    const temporalMaskEmbed: array<T>
    /** Length of each spatial mask span. */
    const spatialSpanLen: int
    /** Maximum probability of masking a feature channel; spatial masking
        runs only when it is positive. */
    const maxSpatialMaskProb: real

    /** The part of construction after the probability check: store the
        hyperparameters and allocate the embedding, filled by `uniformSample`
        (the random uniform initialisation). */
    constructor (modelDim: nat, uniformSample: nat -> T,
                 temporalSpanLen: int := 10, maxTemporalMaskProb: real := 0.65,
                 spatialSpanLen: int := 10, maxSpatialMaskProb: real := 0.0)
      requires maxTemporalMaskProb != 0.0
      ensures this.temporalSpanLen == temporalSpanLen
      ensures this.maxTemporalMaskProb == maxTemporalMaskProb
      ensures this.spatialSpanLen == spatialSpanLen
      ensures this.maxSpatialMaskProb == maxSpatialMaskProb
      ensures fresh(temporalMaskEmbed) && temporalMaskEmbed.Length == modelDim
      ensures forall i :: 0 <= i < modelDim ==> temporalMaskEmbed[i] == uniformSample(i)
    {
      this.temporalSpanLen := temporalSpanLen;
      this.maxTemporalMaskProb := maxTemporalMaskProb;
      temporalMaskEmbed := new T[modelDim](i => uniformSample(i));
      this.spatialSpanLen := spatialSpanLen;
      this.maxSpatialMaskProb := maxSpatialMaskProb;
    }

    /** Channel `m` of sequence `n` is zeroed: spatial masking is enabled and
        the spatial mask selects it. */
    predicate SpatiallyMasked(spatialMask: Option<seq<seq<bool>>>, n: nat, m: nat)
    {
      maxSpatialMaskProb > 0.0 && spatialMask.Some?
      && n < |spatialMask.value| && m < |spatialMask.value[n]| && spatialMask.value[n][m]
    }

    /** Mask `seqs` (shape (N, S, M)) in place and return it with the
        temporal mask. `temporalMask` (N, S) and `spatialMask` (N, M) are the
        sampler's masks; the spatial one is only drawn, and only read, when
        `maxSpatialMaskProb > 0`. */
    method Forward(seqs: array3<T>, temporalMask: seq<seq<bool>>, spatialMask: Option<seq<seq<bool>>>, zero: T)
      returns (masked: array3<T>, appliedMask: seq<seq<bool>>)
      requires TemporalMask.IsMatrix(temporalMask, seqs.Length0, seqs.Length1)
      requires seqs.Length2 == temporalMaskEmbed.Length
      requires maxSpatialMaskProb > 0.0 ==>
                 spatialMask.Some? && TemporalMask.IsMatrix(spatialMask.value, seqs.Length0, seqs.Length2)
      modifies seqs
      ensures masked == seqs && appliedMask == temporalMask
      // Spatial zeroing runs last, so it wins over the embedding.
      ensures forall n, s, m :: InShape(seqs, n, s, m) && SpatiallyMasked(spatialMask, n, m) ==>
                seqs[n, s, m] == zero
      ensures forall n, s, m :: InShape(seqs, n, s, m) && temporalMask[n][s] && !SpatiallyMasked(spatialMask, n, m) ==>
                seqs[n, s, m] == temporalMaskEmbed[m]
      ensures forall n, s, m :: InShape(seqs, n, s, m) && !temporalMask[n][s] && !SpatiallyMasked(spatialMask, n, m) ==>
                seqs[n, s, m] == old(seqs[n, s, m])
      // Without spatial masking the result depends on the temporal mask and the embedding alone.
      ensures maxSpatialMaskProb <= 0.0 ==>
                forall n, s, m :: InShape(seqs, n, s, m) ==>
                  seqs[n, s, m] == if temporalMask[n][s] then temporalMaskEmbed[m] else old(seqs[n, s, m])
    {
      FillMaskedSteps(seqs, temporalMask, temporalMaskEmbed);
      if maxSpatialMaskProb > 0.0 {
        var expanded := ExpandOverTime(spatialMask.value, seqs.Length1);
        FillMaskedElements(seqs, expanded, zero);
      }
      return seqs, temporalMask;
    }
  }

  /** `Wav2Vec2Masker(model_dim, ...)`, with the source's defaults for the
      four hyperparameters: rejects a maximum temporal mask
      probability of exactly zero (any other value, negative ones included,
      is accepted), then allocates the embedding of length `modelDim`. */
  method Create<T>(modelDim: int, uniformSample: nat -> T,
                   temporalSpanLen: int := 10, maxTemporalMaskProb: real := 0.65,
                   spatialSpanLen: int := 10, maxSpatialMaskProb: real := 0.0)
    returns (r: Result<Wav2Vec2Masker<T>, ConfigError>)
    ensures r == Failure(ZeroTemporalMaskProb) <==> maxTemporalMaskProb == 0.0
    ensures r.Success? <==> maxTemporalMaskProb != 0.0 && modelDim >= 0
    ensures r.Success? ==>
              fresh(r.value) && fresh(r.value.temporalMaskEmbed)
              && r.value.temporalSpanLen == temporalSpanLen
              && r.value.maxTemporalMaskProb == maxTemporalMaskProb
              && r.value.spatialSpanLen == spatialSpanLen
              && r.value.maxSpatialMaskProb == maxSpatialMaskProb
              && r.value.temporalMaskEmbed.Length == modelDim
  {
    if maxTemporalMaskProb == 0.0 {
      return Failure(ZeroTemporalMaskProb);
    }
    if modelDim < 0 {
      return Failure(NegativeModelDim);
    }
    var masker := new Wav2Vec2Masker(modelDim, uniformSample, temporalSpanLen, maxTemporalMaskProb,
                                     spatialSpanLen, maxSpatialMaskProb);
    return Success(masker);
  }

  /** A client relying on the defaults: the masker is built, and spatial
      masking stays off unless the caller asks for it. */
  method CreateWithDefaults(uniformSample: nat -> real)
  {
    var r := Create(4, uniformSample);
    assert r.Success?;
    var masker := r.value;
    assert masker.temporalSpanLen == 10 && masker.maxTemporalMaskProb == 0.65;
    assert masker.spatialSpanLen == 10 && masker.maxSpatialMaskProb == 0.0;
    assert masker.temporalMaskEmbed.Length == 4;
  }
}
