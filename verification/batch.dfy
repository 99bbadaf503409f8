/** Batch-level masking of `RandomBlockMasking`: plan every sequence, merge the position sets
    into one set of (batch, time) pairs, and scatter the mask embedding into a copy of the
    features while building the 0/1 mask. */
module BatchMask {
  import opened Outcomes
  import opened Config
  import opened Spans
  import opened Planner

  /** A feature tensor indexed `[batch][feature][time]`. */
  type Tensor<T> = seq<seq<seq<T>>>

  datatype Dims = Dims(batch: nat, dim: nat, time: nat)

  predicate HasShape<T>(x: Tensor<T>, s: Dims) {
    && |x| == s.batch
    && (forall b :: 0 <= b < |x| ==> |x[b]| == s.dim)
    && (forall b, d :: 0 <= b < |x| && 0 <= d < |x[b]| ==> |x[b][d]| == s.time)
  }

  /** The `zeros_like` mask every call starts from. */
  function Zeros(s: Dims): (z: Tensor<real>)
    ensures HasShape(z, s)
    ensures forall b, d, t :: 0 <= b < s.batch && 0 <= d < s.dim && 0 <= t < s.time ==> z[b][d][t] == 0.0
  {
    seq(s.batch, b => seq(s.dim, d => seq(s.time, t => 0.0)))
  }

  // ---------------------------------------------------------------------------
  // Merging per-sequence positions

  /** The rows `(i, t)` for one sequence: its positions tagged with its batch index. */
  function Tag(i: nat, ps: set<nat>): set<(nat, nat)> {
    set t | t in ps :: (i, t)
  }

  /** Tagging with one batch index neither merges nor invents rows. */
  lemma {:induction false} TagSize(i: nat, ps: set<nat>)
    ensures |Tag(i, ps)| == |ps|
    decreases ps
  {
    if ps != {} {
      var x :| x in ps;
      TagSize(i, ps - {x});
      assert Tag(i, ps) == Tag(i, ps - {x}) + {(i, x)};
    } else {
      assert Tag(i, ps) == {};
    }
  }

  /** The concatenation of all sequences' tagged rows. */
  function Merge(per: seq<set<nat>>): (r: set<(nat, nat)>)
    ensures forall b: nat, t: nat :: (b, t) in r <==> b < |per| && t in per[b]
  {
    if |per| == 0 then {}
    else
      var n := |per| - 1;
      var prefix := per[..n];
      assert forall b :: 0 <= b < n ==> prefix[b] == per[b];
      Merge(prefix) + Tag(n, per[n])
  }

  /** Sequences that contribute no position contribute no row. */
  lemma {:induction false} MergeEmpty(per: seq<set<nat>>)
    requires forall i :: 0 <= i < |per| ==> per[i] == {}
    ensures Merge(per) == {}
  {
    if |per| > 0 {
      var n := |per| - 1;
      MergeEmpty(per[..n]);
      assert Tag(n, per[n]) == {};
    }
  }

  function SumSizes(per: seq<set<nat>>): nat {
    if |per| == 0 then 0 else SumSizes(per[..|per| - 1]) + |per[|per| - 1]|
  }

  /** Rows of different sequences carry different batch indices, so the merged set has exactly
      as many rows as the sequences have positions together: nothing is lost or merged. */
  lemma {:induction false} MergeSize(per: seq<set<nat>>)
    ensures |Merge(per)| == SumSizes(per)
  {
    if |per| > 0 {
      var n := |per| - 1;
      var prefix := per[..n];
      MergeSize(prefix);
      TagSize(n, per[n]);
      var a, b := Merge(prefix), Tag(n, per[n]);
      assert a * b == {};
      assert Merge(per) == a + b;
    }
  }

  // ---------------------------------------------------------------------------
  // Scatter-write

  /** Every row addresses an element of the tensor; otherwise `index_put` raises. */
  predicate InRange(idx: set<(nat, nat)>, s: Dims) {
    forall p :: p in idx ==> p.0 < s.batch && p.1 < s.time
  }

  /** The two `index_put` calls: the embedding is written at every selected `(b, :, t)` of a
      copy of the features, and 1.0 at the same places of a zero mask. With no row the input is
      returned as it is together with the zero mask. */
  function Scatter<T>(x: Tensor<T>, s: Dims, idx: set<(nat, nat)>, emb: seq<T>): (r: Result<(Tensor<T>, Tensor<real>)>)
    requires HasShape(x, s) && |emb| == s.dim
    ensures r.Err? <==> !InRange(idx, s)
    ensures r.Ok? ==> HasShape(r.value.0, s) && HasShape(r.value.1, s)
    ensures idx == {} ==> r == Ok((x, Zeros(s)))
  {
    if !InRange(idx, s) then Err(IndexOutOfRange)
    else if idx == {} then Ok((x, Zeros(s)))
    else
      var masked := seq(s.batch, b requires 0 <= b < s.batch => seq(s.dim, d requires 0 <= d < s.dim =>
                      seq(s.time, t requires 0 <= t < s.time => if (b, t) in idx then emb[d] else x[b][d][t])));
      var mask := seq(s.batch, b => seq(s.dim, d => seq(s.time, t => if (b, t) in idx then 1.0 else 0.0)));
      Ok((masked, mask))
  }

  /** At a selected `(b, d, t)` the features hold `emb[d]` and the mask 1; everywhere else the
      features keep their input value and the mask is 0. */
  lemma ScatterAt<T>(x: Tensor<T>, s: Dims, idx: set<(nat, nat)>, emb: seq<T>, b: nat, d: nat, t: nat)
    requires HasShape(x, s) && |emb| == s.dim
    requires Scatter(x, s, idx, emb).Ok? && b < s.batch && d < s.dim && t < s.time
    ensures var r := Scatter(x, s, idx, emb).value;
            && ((b, t) in idx ==> r.0[b][d][t] == emb[d] && r.1[b][d][t] == 1.0)
            && ((b, t) !in idx ==> r.0[b][d][t] == x[b][d][t] && r.1[b][d][t] == 0.0)
  {
  }

  /** The mask read back at any feature row gives exactly the selected rows: writing the mask
      loses no selection and adds none. */
  lemma MaskRecoversIndices<T>(x: Tensor<T>, s: Dims, idx: set<(nat, nat)>, emb: seq<T>, d: nat)
    requires HasShape(x, s) && |emb| == s.dim && d < s.dim
    requires Scatter(x, s, idx, emb).Ok?
    ensures var mask := Scatter(x, s, idx, emb).value.1;
            idx == set b, t | 0 <= b < s.batch && 0 <= t < s.time && mask[b][d][t] == 1.0 :: (b, t)
  {
    var mask := Scatter(x, s, idx, emb).value.1;
    var back := set b, t | 0 <= b < s.batch && 0 <= t < s.time && mask[b][d][t] == 1.0 :: (b, t);
    forall p | p in idx ensures p in back {
      ScatterAt(x, s, idx, emb, p.0, d, p.1);
    }
    forall b, t | 0 <= b < s.batch && 0 <= t < s.time && mask[b][d][t] == 1.0 ensures (b, t) in idx {
      ScatterAt(x, s, idx, emb, b, d, t);
    }
  }

  // ---------------------------------------------------------------------------
  // Forward passes

  /** The draws of every sequence are in range for its length and the chosen variant; for the
      grid variant the effective block width must also be positive. */
  predicate ValidDraws(c: MaskConfig, lengths: seq<nat>, draws: seq<Draw>)
    requires ValidConfig(c)
  {
    && |draws| == |lengths|
    && forall i :: 0 <= i < |lengths| ==>
         if c.allowOverlap then ValidStartDraw(c, lengths[i], draws[i])
         else NonOverlapDefined(c, lengths[i]) && ValidGridDraw(c, lengths[i], draws[i])
  }

  /** The blocks planned for one sequence by the variant `allow_overlap` selects. */
  function PlanSequence(c: MaskConfig, len: nat, d: Draw): seq<Block>
    requires ValidConfig(c)
    requires if c.allowOverlap then ValidStartDraw(c, len, d)
             else NonOverlapDefined(c, len) && ValidGridDraw(c, len, d)
  {
    if c.allowOverlap then OverlapBlocks(c, len, d) else NonOverlapBlocks(c, len, d)
  }

  /** The merged, deduplicated (batch, time) rows of a whole batch. */
  function BatchIndices(c: MaskConfig, lengths: seq<nat>, draws: seq<Draw>): (idx: set<(nat, nat)>)
    requires ValidConfig(c) && ValidDraws(c, lengths, draws)
    ensures forall b: nat, t: nat :: (b, t) in idx <==>
              b < |lengths| && t in Covered(PlanSequence(c, lengths[b], draws[b]))
  {
    Merge(seq(|lengths|, i requires 0 <= i < |lengths| => Covered(PlanSequence(c, lengths[i], draws[i]))))
  }

  /** `RandomBlockMasking.forward`: dispatch on `allow_overlap`, plan, merge and scatter. */
  function RandomBlockMask<T>(c: MaskConfig, x: Tensor<T>, s: Dims, lengths: seq<nat>, draws: seq<Draw>, emb: seq<T>)
    : (r: Result<(Tensor<T>, Tensor<real>)>)
    requires ValidConfig(c) && HasShape(x, s) && |emb| == s.dim
    requires |lengths| == s.batch && ValidDraws(c, lengths, draws)
    ensures r.Ok? ==> HasShape(r.value.0, s) && HasShape(r.value.1, s)
  {
    Scatter(x, s, BatchIndices(c, lengths, draws), emb)
  }

  /** The call fails exactly when some planned position lies beyond the time axis. */
  lemma RandomBlockMaskFails<T>(c: MaskConfig, x: Tensor<T>, s: Dims, lengths: seq<nat>, draws: seq<Draw>, emb: seq<T>)
    requires ValidConfig(c) && HasShape(x, s) && |emb| == s.dim
    requires |lengths| == s.batch && ValidDraws(c, lengths, draws)
    ensures RandomBlockMask(c, x, s, lengths, draws, emb).Err? <==>
            exists b: nat, t: nat :: b < |lengths| && t in Covered(PlanSequence(c, lengths[b], draws[b])) && t >= s.time
  {
    var idx := BatchIndices(c, lengths, draws);
    if !InRange(idx, s) {
      var p :| p in idx && !(p.0 < s.batch && p.1 < s.time);
      assert p.1 in Covered(PlanSequence(c, lengths[p.0], draws[p.0]));
    } else {
      forall b: nat, t: nat | b < |lengths| && t in Covered(PlanSequence(c, lengths[b], draws[b]))
        ensures t < s.time
      {
        assert (b, t) in idx;
      }
    }
  }

  /** On success each `(b, :, t)` holds the embedding and a 1 when `t` was planned for
      sequence `b`, and the input value and a 0 when it was not. */
  lemma RandomBlockMaskContents<T>(c: MaskConfig, x: Tensor<T>, s: Dims, lengths: seq<nat>, draws: seq<Draw>, emb: seq<T>,
                      b: nat, d: nat, t: nat)
    requires ValidConfig(c) && HasShape(x, s) && |emb| == s.dim
    requires |lengths| == s.batch && ValidDraws(c, lengths, draws)
    requires RandomBlockMask(c, x, s, lengths, draws, emb).Ok?
    requires b < s.batch && d < s.dim && t < s.time
    ensures var r := RandomBlockMask(c, x, s, lengths, draws, emb).value;
            && (t in Covered(PlanSequence(c, lengths[b], draws[b])) ==> r.0[b][d][t] == emb[d] && r.1[b][d][t] == 1.0)
            && (t !in Covered(PlanSequence(c, lengths[b], draws[b])) ==> r.0[b][d][t] == x[b][d][t] && r.1[b][d][t] == 0.0)
  {
    var idx := BatchIndices(c, lengths, draws);
    ScatterAt(x, s, idx, emb, b, d, t);
    assert (b, t) in idx <==> t in Covered(PlanSequence(c, lengths[b], draws[b]));
  }

  /** The overlap variant never indexes out of range when every length fits in the time axis. */
  lemma OverlapNeverFails<T>(c: MaskConfig, x: Tensor<T>, s: Dims, lengths: seq<nat>, draws: seq<Draw>, emb: seq<T>)
    requires ValidConfig(c) && HasShape(x, s) && |emb| == s.dim
    requires |lengths| == s.batch && ValidDraws(c, lengths, draws)
    requires c.allowOverlap && forall i :: 0 <= i < |lengths| ==> lengths[i] <= s.time
    ensures RandomBlockMask(c, x, s, lengths, draws, emb).Ok?
  {
    forall b: nat, t: nat | (b, t) in BatchIndices(c, lengths, draws)
      ensures t < s.time
    {
      OverlapInBounds(c, lengths[b], draws[b]);
    }
  }

  /** The grid variant stays in range when, for every sequence, either the fallback applies and
      the time axis has room for `[0, 8)`, or the block was not shrunk and the length fits. */
  lemma NonOverlapSucceedsWhen<T>(c: MaskConfig, x: Tensor<T>, s: Dims, lengths: seq<nat>, draws: seq<Draw>, emb: seq<T>)
    requires ValidConfig(c) && HasShape(x, s) && |emb| == s.dim
    requires |lengths| == s.batch && ValidDraws(c, lengths, draws) && !c.allowOverlap
    requires forall i :: 0 <= i < |lengths| ==>
               if ShortSequence(c, lengths[i]) then FallbackBlockSize <= s.time
               else !Shrinks(c, lengths[i]) && lengths[i] <= s.time
    ensures RandomBlockMask(c, x, s, lengths, draws, emb).Ok?
  {
    forall b: nat, t: nat | (b, t) in BatchIndices(c, lengths, draws)
      ensures t < s.time
    {
      if ShortSequence(c, lengths[b]) {
        NonOverlapFallback(c, lengths[b], draws[b]);
      } else {
        NonOverlapBound(c, lengths[b], draws[b]);
      }
    }
  }

  /** When no sequence plans a block the call is the no-op: the features come back unchanged
      with an all-zero mask. */
  lemma NoBlocksNoOp<T>(c: MaskConfig, x: Tensor<T>, s: Dims, lengths: seq<nat>, draws: seq<Draw>, emb: seq<T>)
    requires ValidConfig(c) && HasShape(x, s) && |emb| == s.dim
    requires |lengths| == s.batch && ValidDraws(c, lengths, draws)
    requires forall i :: 0 <= i < |lengths| ==> PlanSequence(c, lengths[i], draws[i]) == []
    ensures RandomBlockMask(c, x, s, lengths, draws, emb) == Ok((x, Zeros(s)))
  {
    MergeEmpty(seq(|lengths|, i requires 0 <= i < |lengths| => Covered(PlanSequence(c, lengths[i], draws[i]))));
  }

  /** With mask probability zero and no short sequence, the grid variant masks nothing. */
  lemma ZeroProbNoOp<T>(c: MaskConfig, x: Tensor<T>, s: Dims, lengths: seq<nat>, draws: seq<Draw>, emb: seq<T>)
    requires ValidConfig(c) && HasShape(x, s) && |emb| == s.dim
    requires |lengths| == s.batch && ValidDraws(c, lengths, draws)
    requires !c.allowOverlap && c.maskProb.num == 0
    requires forall i :: 0 <= i < |lengths| ==> !ShortSequence(c, lengths[i])
    ensures RandomBlockMask(c, x, s, lengths, draws, emb) == Ok((x, Zeros(s)))
  {
    forall i | 0 <= i < |lengths| ensures PlanSequence(c, lengths[i], draws[i]) == [] {
      NonOverlapZeroProb(c, lengths[i], draws[i]);
    }
    NoBlocksNoOp(c, x, s, lengths, draws, emb);
  }

  /** The batch rows number exactly the per-sequence position counts added up: deduplication
      with the batch index prepended never merges rows of different sequences. */
  lemma BatchIndicesSize(c: MaskConfig, lengths: seq<nat>, draws: seq<Draw>)
    requires ValidConfig(c) && ValidDraws(c, lengths, draws)
    ensures |BatchIndices(c, lengths, draws)| ==
            SumSizes(seq(|lengths|, i requires 0 <= i < |lengths| => Covered(PlanSequence(c, lengths[i], draws[i]))))
  {
    MergeSize(seq(|lengths|, i requires 0 <= i < |lengths| => Covered(PlanSequence(c, lengths[i], draws[i]))));
  }
}
