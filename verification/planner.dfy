/** Per-sequence block planning of `RandomBlockMasking`: which time positions of one sequence
    of valid length `len` are masked, given the configuration and the random draws. */
module Planner {
  import opened Config
  import opened Spans

  /** Width of the single block used when a sequence is too short for the configured block. */
  const FallbackBlockSize: nat := 8

  /** The random draws one sequence consumes. The non-overlap planner draws an offset
      (`randint(0, block_size)`) and a permutation of the grid slots (`randperm`); the overlap
      planner draws a patch count (`binomial`) and a permutation of the legal starts. The
      short-sequence fallback draws nothing. */
  datatype Draw =
    | GridDraw(offset: nat, perm: seq<nat>)
    | StartDraw(numPatches: nat, perm: seq<nat>)

  predicate Distinct(p: seq<nat>) {
    forall j, k :: 0 <= j < k < |p| ==> p[j] != p[k]
  }

  /** `p` is an ordering of `[0, m)`, as `randperm(m)` returns. */
  predicate IsPermutation(p: seq<nat>, m: int) {
    && |p| == m
    && (forall j :: 0 <= j < |p| ==> p[j] < m)
    && Distinct(p)
  }

  // ---------------------------------------------------------------------------
  // Short-sequence fallback

  /** `block_size >= len * max_mask_ratio`, cross-multiplied so that it is exact. */
  predicate ShortSequence(c: MaskConfig, len: nat)
    requires ValidConfig(c)
  {
    c.blockSize * c.maxMaskRatio.den >= len * c.maxMaskRatio.num
  }

  /** The integer test agrees with the comparison the source makes on the rational ratio. */
  lemma ShortSequenceExact(c: MaskConfig, len: nat)
    requires ValidConfig(c)
    ensures ShortSequence(c, len) <==> c.blockSize as real >= len as real * ToReal(c.maxMaskRatio)
  {
    var d := c.maxMaskRatio.den as real;
    var lhs := c.blockSize as real;
    var rhs := len as real * ToReal(c.maxMaskRatio);
    assert rhs * d == (len * c.maxMaskRatio.num) as real;
    assert lhs * d == (c.blockSize * c.maxMaskRatio.den) as real;
    assert lhs >= rhs <==> lhs * d >= rhs * d;
  }

  // ---------------------------------------------------------------------------
  // Non-overlap planner

  /** `ceil(len * mask_prob / block_size)`. */
  function NumPatches(c: MaskConfig, len: nat): nat
    requires ValidConfig(c)
  {
    CeilDiv(len * c.maskProb.num, c.maskProb.den * c.blockSize)
  }

  /** Rounded-up integer division. */
  function CeilDiv(x: nat, d: nat): nat
    requires d >= 1
  {
    (x + d - 1) / d
  }

  /** `CeilDiv(x, d)` is the least `q` with `q * d >= x`. */
  lemma CeilDivIsCeiling(x: nat, d: nat)
    requires d >= 1
    ensures CeilDiv(x, d) * d >= x
    ensures CeilDiv(x, d) == 0 || (CeilDiv(x, d) - 1) * d < x
  {
    var q := CeilDiv(x, d);
    assert q * d <= x + d - 1 < q * d + d;
    assert (q - 1) * d == q * d - d;
  }

  /** The patch count is the least `n` with `n * block_size >= len * mask_prob`. */
  lemma NumPatchesIsCeiling(c: MaskConfig, len: nat)
    requires ValidConfig(c)
    ensures NumPatches(c, len) * (c.maskProb.den * c.blockSize) >= len * c.maskProb.num
    ensures NumPatches(c, len) == 0 ||
            (NumPatches(c, len) - 1) * (c.maskProb.den * c.blockSize) < len * c.maskProb.num
  {
    CeilDivIsCeiling(len * c.maskProb.num, c.maskProb.den * c.blockSize);
  }

  /** True when `num_patches + 1` blocks of the configured width do not fit in the sequence,
      so that the block is shrunk. */
  predicate Shrinks(c: MaskConfig, len: nat)
    requires ValidConfig(c)
  {
    (NumPatches(c, len) + 1) * c.blockSize > len
  }

  /** The block width actually used by the grid: the configured one, or `len / (n + 1)` when
      `n + 1` configured blocks would not fit. */
  function EffectiveBlockSize(c: MaskConfig, len: nat): nat
    requires ValidConfig(c)
  {
    if Shrinks(c, len) then len / (NumPatches(c, len) + 1) else c.blockSize
  }

  /** `n + 1` blocks of the effective width always fit in the sequence; a shrunk width is the
      largest one that does, and is strictly below the configured width. */
  lemma EffectiveBlockFits(c: MaskConfig, len: nat)
    requires ValidConfig(c)
    ensures EffectiveBlockSize(c, len) * (NumPatches(c, len) + 1) <= len
    ensures !Shrinks(c, len) ==> EffectiveBlockSize(c, len) == c.blockSize
    ensures Shrinks(c, len) ==>
              && EffectiveBlockSize(c, len) < c.blockSize
              && len < (EffectiveBlockSize(c, len) + 1) * (NumPatches(c, len) + 1)
  {
    if Shrinks(c, len) {
      ShrunkWidth(len, NumPatches(c, len) + 1, c.blockSize);
    }
  }

  /** `len / k` is the largest width of which `k` copies fit in `len`; it is below `b` when
      `k` copies of `b` do not fit. */
  lemma ShrunkWidth(len: nat, k: nat, b: nat)
    requires k >= 1 && k * b > len
    ensures (len / k) * k <= len < (len / k + 1) * k
    ensures len / k < b
  {
    var q := len / k;
    assert q * k + len % k == len;
    assert (q + 1) * k == q * k + k;
    assert k * b == b * k;
    if q >= b {
      MulMono(b, q, k);
    }
  }

  /** The grid planner is defined: the fallback applies, or the effective width is positive
      (`len / block_size` at line 117 divides by it). */
  predicate NonOverlapDefined(c: MaskConfig, len: nat)
    requires ValidConfig(c)
  {
    ShortSequence(c, len) || EffectiveBlockSize(c, len) >= 1
  }

  /** Number of grid slots the permutation ranges over: `len / bs - 1`. */
  function GridSlots(c: MaskConfig, len: nat): int
    requires ValidConfig(c) && EffectiveBlockSize(c, len) >= 1
  {
    len / EffectiveBlockSize(c, len) - 1
  }

  /** There are always at least as many grid slots as patches, so the permutation prefix of
      length `n` always exists and is made of `n` distinct slots. */
  lemma SlotsSuffice(c: MaskConfig, len: nat)
    requires ValidConfig(c) && EffectiveBlockSize(c, len) >= 1
    ensures GridSlots(c, len) >= NumPatches(c, len)
  {
    EffectiveBlockFits(c, len);
    DivLowerBound(len, EffectiveBlockSize(c, len), NumPatches(c, len) + 1);
  }

  /** With the defaults' shape of configuration (block of at least 2, probability and ratio at
      most 1) the effective width is never zero, so the grid planner never divides by zero. */
  lemma NonOverlapAlwaysDefined(c: MaskConfig, len: nat)
    requires ValidConfig(c) && c.blockSize >= 2 && AtMostOne(c.maskProb) && AtMostOne(c.maxMaskRatio)
    ensures NonOverlapDefined(c, len)
  {
    if !ShortSequence(c, len) && Shrinks(c, len) {
      var n := NumPatches(c, len);
      NumPatchesIsCeiling(c, len);
      PatchesBelowLength(len, c.blockSize, n, c.maskProb.num, c.maskProb.den,
                         c.maxMaskRatio.num, c.maxMaskRatio.den);
      DivLowerBound(len, n + 1, 1);
    }
  }

  /** Pure arithmetic behind `NonOverlapAlwaysDefined`: `len * ratio > b >= 2` with `ratio <= 1`
      gives `len > 2`, and `n = ceil(len * p / b) <= ceil(len / 2)` then stays below `len`. */
  lemma PatchesBelowLength(len: nat, b: nat, n: nat, pn: nat, pd: nat, rn: nat, rd: nat)
    requires b >= 2 && pd >= 1 && rd >= 1 && pn <= pd && rn <= rd
    requires b * rd < len * rn
    requires n == 0 || (n - 1) * (pd * b) < len * pn
    ensures n + 1 <= len
  {
    BelowAfterScaling(b, len, rn, rd);
    if n + 1 > len {
      var k: nat := n - 1;
      MulMono(pn, pd, len);
      assert k * (pd * b) < len * pd;
      TwiceBelow(k, b, pd, len);
    }
  }

  /** `k * (pd * b) < len * pd` with `b >= 2` gives `2 * k < len`. */
  lemma TwiceBelow(k: nat, b: nat, pd: nat, len: nat)
    requires b >= 2 && pd >= 1 && k * (pd * b) < len * pd
    ensures 2 * k < len
  {
    assert k * (pd * b) == (k * b) * pd;
    MulMono(2 * k, k * b, pd);
    if 2 * k >= len {
      MulMono(len, 2 * k, pd);
    }
  }

  /** `b * rd < len * rn` with `rn <= rd` gives `b < len`. */
  lemma BelowAfterScaling(b: nat, len: nat, rn: nat, rd: nat)
    requires rd >= 1 && rn <= rd && b * rd < len * rn
    ensures b < len
  {
    MulMono(rn, rd, len);
    assert rd * len == len * rd;
    if b >= len {
      MulMono(len, b, rd);
    }
  }

  /** The grid draws are in their ranges: an offset in `[0, block_size)` and a permutation of
      the `len / bs - 1` grid slots. The fallback draws nothing. */
  predicate ValidGridDraw(c: MaskConfig, len: nat, d: Draw)
    requires ValidConfig(c) && NonOverlapDefined(c, len)
  {
    ShortSequence(c, len) ||
    (d.GridDraw? && d.offset < c.blockSize && IsPermutation(d.perm, GridSlots(c, len)))
  }

  /** The blocks `forward_without_overlap` masks in one sequence: the fallback block `[0, 8)`,
      or one block of the effective width per chosen slot `k`, starting at `k * bs + offset`. */
  function NonOverlapBlocks(c: MaskConfig, len: nat, d: Draw): (r: seq<Block>)
    requires ValidConfig(c) && NonOverlapDefined(c, len) && ValidGridDraw(c, len, d)
    ensures ShortSequence(c, len) ==> |r| == 1
    ensures !ShortSequence(c, len) ==> |r| == NumPatches(c, len)
  {
    if ShortSequence(c, len) then
      [Block(0, FallbackBlockSize)]
    else
      var n := NumPatches(c, len);
      var bs := EffectiveBlockSize(c, len);
      SlotsSuffice(c, len);
      GridBlocks(d.perm[..n], bs, d.offset)
  }

  /** One block of width `bs` per slot `k`, starting at `k * bs + offset`. */
  function GridBlocks(slots: seq<nat>, bs: nat, offset: nat): (r: seq<Block>)
    ensures |r| == |slots|
  {
    seq(|slots|, j requires 0 <= j < |slots| => Block(slots[j] * bs + offset, slots[j] * bs + offset + bs))
  }

  /** Blocks at distinct grid slots are pairwise disjoint. */
  lemma GridDisjoint(slots: seq<nat>, bs: nat, offset: nat)
    requires Distinct(slots)
    ensures PairwiseDisjoint(GridBlocks(slots, bs, offset))
  {
    var r := GridBlocks(slots, bs, offset);
    forall j, k | 0 <= j < k < |r|
      ensures Positions(r[j]) !! Positions(r[k])
    {
      var a, b := slots[j], slots[k];
      if a < b {
        MulMono(a + 1, b, bs);
        assert r[j].end <= r[k].start;
      } else {
        MulMono(b + 1, a, bs);
        assert r[k].end <= r[j].start;
      }
    }
  }

  /** Blocks at slots below `m - 1` end at or before `(m - 1) * bs + offset`. */
  lemma GridEnd(slots: seq<nat>, bs: nat, offset: nat, m: nat)
    requires forall j :: 0 <= j < |slots| ==> slots[j] + 1 < m
    ensures forall j :: 0 <= j < |slots| ==> GridBlocks(slots, bs, offset)[j].end <= (m - 1) * bs + offset
  {
    forall j | 0 <= j < |slots|
      ensures GridBlocks(slots, bs, offset)[j].end <= (m - 1) * bs + offset
    {
      MulMono(slots[j] + 1, m - 1, bs);
    }
  }

  /** Fallback of the grid planner: exactly `[0, 8)`, not clipped to the sequence, also when
      the sequence is shorter than 8 or empty. */
  lemma NonOverlapFallback(c: MaskConfig, len: nat, d: Draw)
    requires ValidConfig(c) && NonOverlapDefined(c, len) && ValidGridDraw(c, len, d)
    requires ShortSequence(c, len)
    ensures forall t: nat :: t in Covered(NonOverlapBlocks(c, len, d)) <==> t < FallbackBlockSize
  {
    assert NonOverlapBlocks(c, len, d) == [Block(0, FallbackBlockSize)];
    CoveredOne(Block(0, FallbackBlockSize));
  }

  /** Outside the fallback every grid block has the effective width and starts at a slot in
      `[0, len / bs - 1)`, shifted by the shared offset. */
  lemma NonOverlapGrid(c: MaskConfig, len: nat, d: Draw)
    requires ValidConfig(c) && NonOverlapDefined(c, len) && ValidGridDraw(c, len, d)
    requires !ShortSequence(c, len)
    ensures var r := NonOverlapBlocks(c, len, d);
            var bs := EffectiveBlockSize(c, len);
            forall j :: 0 <= j < |r| ==>
              && Width(r[j]) == bs
              && r[j].start >= d.offset
              && (r[j].start - d.offset) % bs == 0
              && (r[j].start - d.offset) / bs < GridSlots(c, len)
  {
    var bs := EffectiveBlockSize(c, len);
    SlotsSuffice(c, len);
    var slots := d.perm[..NumPatches(c, len)];
    var r := GridBlocks(slots, bs, d.offset);
    assert NonOverlapBlocks(c, len, d) == r;
    forall j | 0 <= j < |r|
      ensures Width(r[j]) == bs && r[j].start >= d.offset
      ensures (r[j].start - d.offset) % bs == 0 && (r[j].start - d.offset) / bs < GridSlots(c, len)
    {
      assert r[j].start - d.offset == slots[j] * bs;
      MulDivCancel(slots[j], bs);
    }
  }

  /** Grid blocks at distinct slots never overlap. */
  lemma NonOverlapDisjoint(c: MaskConfig, len: nat, d: Draw)
    requires ValidConfig(c) && NonOverlapDefined(c, len) && ValidGridDraw(c, len, d)
    requires !ShortSequence(c, len)
    ensures PairwiseDisjoint(NonOverlapBlocks(c, len, d))
  {
    SlotsSuffice(c, len);
    var slots := d.perm[..NumPatches(c, len)];
    assert Distinct(slots) by {
      forall j, k | 0 <= j < k < |slots| ensures slots[j] != slots[k] {
        assert slots[j] == d.perm[j] && slots[k] == d.perm[k];
      }
    }
    GridDisjoint(slots, EffectiveBlockSize(c, len), d.offset);
  }

  /** Outside the fallback the grid planner masks exactly `n * bs` positions: `n` blocks of the
      effective width, none of them overlapping. */
  lemma NonOverlapCount(c: MaskConfig, len: nat, d: Draw)
    requires ValidConfig(c) && NonOverlapDefined(c, len) && ValidGridDraw(c, len, d)
    requires !ShortSequence(c, len)
    ensures |Covered(NonOverlapBlocks(c, len, d))| == NumPatches(c, len) * EffectiveBlockSize(c, len)
  {
    var r := NonOverlapBlocks(c, len, d);
    NonOverlapGrid(c, len, d);
    NonOverlapDisjoint(c, len, d);
    DisjointCoveredSize(r);
    UniformTotalWidth(r, EffectiveBlockSize(c, len));
  }

  /** Every grid position lies below `len + (block_size - bs)`: the offset is drawn below the
      configured width even when the block was shrunk, which may push the last block past the
      sequence by up to `block_size - bs` positions. Without shrinking the bound is `len`. */
  lemma NonOverlapBound(c: MaskConfig, len: nat, d: Draw)
    requires ValidConfig(c) && NonOverlapDefined(c, len) && ValidGridDraw(c, len, d)
    requires !ShortSequence(c, len)
    ensures forall t: nat :: t in Covered(NonOverlapBlocks(c, len, d)) ==>
              t < len + (c.blockSize - EffectiveBlockSize(c, len))
    ensures !Shrinks(c, len) ==> forall t: nat :: t in Covered(NonOverlapBlocks(c, len, d)) ==> t < len
  {
    var r := NonOverlapBlocks(c, len, d);
    var bs := EffectiveBlockSize(c, len);
    forall j | 0 <= j < |r|
      ensures r[j].end <= len + (c.blockSize - bs)
    {
      GridBlockEnd(c, len, d, j);
    }
  }

  /** Drawing the offset below the effective width instead would keep every grid position
      inside the sequence, shrunk or not. */
  lemma NonOverlapBoundWithEffectiveOffset(c: MaskConfig, len: nat, d: Draw)
    requires ValidConfig(c) && NonOverlapDefined(c, len) && ValidGridDraw(c, len, d)
    requires !ShortSequence(c, len) && d.offset < EffectiveBlockSize(c, len)
    ensures forall t: nat :: t in Covered(NonOverlapBlocks(c, len, d)) ==> t < len
  {
    var r := NonOverlapBlocks(c, len, d);
    forall j | 0 <= j < |r|
      ensures r[j].end <= len
    {
      GridBlockEnd(c, len, d, j);
    }
  }

  /** The end of grid block `j` is at most `(M - 1) * bs + offset` with `M = len / bs`, and
      `M * bs <= len`. */
  lemma GridBlockEnd(c: MaskConfig, len: nat, d: Draw, j: nat)
    requires ValidConfig(c) && NonOverlapDefined(c, len) && ValidGridDraw(c, len, d)
    requires !ShortSequence(c, len) && j < |NonOverlapBlocks(c, len, d)|
    ensures NonOverlapBlocks(c, len, d)[j].end <= len + (c.blockSize - EffectiveBlockSize(c, len))
    ensures d.offset < EffectiveBlockSize(c, len) ==> NonOverlapBlocks(c, len, d)[j].end <= len
  {
    var bs := EffectiveBlockSize(c, len);
    var m := len / bs;
    SlotsSuffice(c, len);
    var slots := d.perm[..NumPatches(c, len)];
    assert forall i :: 0 <= i < |slots| ==> slots[i] + 1 < m by {
      forall i | 0 <= i < |slots| ensures slots[i] + 1 < m {
        assert slots[i] == d.perm[i];
      }
    }
    GridEnd(slots, bs, d.offset, m);
    assert NonOverlapBlocks(c, len, d) == GridBlocks(slots, bs, d.offset);
    LastSlotEnd(len, bs, d.offset, GridBlocks(slots, bs, d.offset)[j].end);
  }

  /** An end at or before `(len / bs - 1) * bs + offset` is at or before `len - bs + offset`. */
  lemma LastSlotEnd(len: nat, bs: nat, offset: nat, e: nat)
    requires bs >= 1 && len / bs >= 1 && e <= (len / bs - 1) * bs + offset
    ensures e + bs <= len + offset
  {
    var m := len / bs;
    DivMulBound(len, bs);
    assert (m - 1) * bs == m * bs - bs;
  }

  /** A concrete input on which the shrunk grid masks a position at the sequence length:
      block 7, mask_prob 1/2, max_mask_ratio 4/5, length 10 gives one patch, width 5, slot 0,
      and an offset of 6 yields the block `[6, 11)`. */
  lemma ShrinkOverrunWitness()
    ensures var c := MaskConfig(7, Ratio(1, 2), Ratio(4, 5), false);
            var d := GridDraw(6, [0]);
            && ValidConfig(c) && NonOverlapDefined(c, 10) && ValidGridDraw(c, 10, d)
            && Shrinks(c, 10)
            && 10 in Covered(NonOverlapBlocks(c, 10, d))
  {
    var c := MaskConfig(7, Ratio(1, 2), Ratio(4, 5), false);
    var d := GridDraw(6, [0]);
    assert !ShortSequence(c, 10);
    assert NumPatches(c, 10) == 1;
    assert EffectiveBlockSize(c, 10) == 5;
    assert GridSlots(c, 10) == 1;
    assert NonOverlapBlocks(c, 10, d) == [Block(6, 11)];
  }

  /** The same happens with the default configuration on a sequence of length 100: two patches
      shrink the block to 33, both slots of `[0, 2)` are used, and an offset of 47 yields the
      blocks `[47, 80)` and `[80, 113)`. */
  lemma DefaultConfigOverrun()
    ensures var d := GridDraw(47, [0, 1]);
            && NonOverlapDefined(DefaultConfig(), 100) && ValidGridDraw(DefaultConfig(), 100, d)
            && EffectiveBlockSize(DefaultConfig(), 100) == 33
            && 112 in Covered(NonOverlapBlocks(DefaultConfig(), 100, d))
  {
    var c := DefaultConfig();
    var d := GridDraw(47, [0, 1]);
    assert !ShortSequence(c, 100);
    assert NumPatches(c, 100) == 2;
    assert EffectiveBlockSize(c, 100) == 33;
    assert GridSlots(c, 100) == 2;
    assert NonOverlapBlocks(c, 100, d) == [Block(47, 80), Block(80, 113)];
    assert 112 in Positions(Block(80, 113));
  }

  /** A sequence of length zero always takes the fallback. The grid planner then still masks
      `[0, 8)`, while the overlap planner masks nothing. */
  lemma EmptySequence(c: MaskConfig, d: Draw)
    requires ValidConfig(c)
    ensures ShortSequence(c, 0) && NonOverlapDefined(c, 0) && ValidGridDraw(c, 0, d) && ValidStartDraw(c, 0, d)
    ensures forall t: nat :: t in Covered(NonOverlapBlocks(c, 0, d)) <==> t < FallbackBlockSize
    ensures Covered(OverlapBlocks(c, 0, d)) == {}
  {
    NonOverlapFallback(c, 0, d);
    OverlapFallback(c, 0, d);
  }

  /** With a zero mask probability the grid planner places no block outside the fallback. */
  lemma NonOverlapZeroProb(c: MaskConfig, len: nat, d: Draw)
    requires ValidConfig(c) && NonOverlapDefined(c, len) && ValidGridDraw(c, len, d)
    requires !ShortSequence(c, len) && c.maskProb.num == 0
    ensures NonOverlapBlocks(c, len, d) == []
  {
    NumPatchesIsCeiling(c, len);
  }

  // ---------------------------------------------------------------------------
  // Overlap planner

  /** Number of legal block starts: `max(0, len - block_size)`. */
  function StartCount(c: MaskConfig, len: nat): (count: nat)
    requires ValidConfig(c)
    ensures count + c.blockSize >= len
    ensures count == 0 || count + c.blockSize == len
  {
    if len > c.blockSize then len - c.blockSize else 0
  }

  /** The overlap draws are in their ranges: a patch count at most the number of starts (the
      support of the binomial draw) and a permutation of the starts. */
  predicate ValidStartDraw(c: MaskConfig, len: nat, d: Draw)
    requires ValidConfig(c)
  {
    ShortSequence(c, len) ||
    (d.StartDraw? && d.numPatches <= StartCount(c, len) && IsPermutation(d.perm, StartCount(c, len)))
  }

  /** The blocks `forward_with_overlap` masks in one sequence: the fallback `[0, 8)` clipped to
      the sequence, or one block `[s, min(s + block_size, len))` per drawn start `s`. */
  function OverlapBlocks(c: MaskConfig, len: nat, d: Draw): (r: seq<Block>)
    requires ValidConfig(c) && ValidStartDraw(c, len, d)
    ensures forall j :: 0 <= j < |r| ==> r[j].end <= len
    ensures ShortSequence(c, len) ==> |r| == 1
    ensures !ShortSequence(c, len) ==>
              && |r| == d.numPatches <= StartCount(c, len)
              && (forall j :: 0 <= j < |r| ==> r[j].start < StartCount(c, len))
              && (forall j, k :: 0 <= j < k < |r| ==> r[j].start != r[k].start)
  {
    if ShortSequence(c, len) then
      [Block(0, Min(FallbackBlockSize, len))]
    else
      var n := d.numPatches;
      var starts := d.perm[..n];
      seq(n, j requires 0 <= j < n => Block(starts[j], Min(starts[j] + c.blockSize, len)))
  }

  function Min(a: nat, b: nat): (m: nat)
    ensures m <= a && m <= b && (m == a || m == b)
  {
    if a <= b then a else b
  }

  /** Fallback of the overlap planner: exactly `[0, min(8, len))`. */
  lemma OverlapFallback(c: MaskConfig, len: nat, d: Draw)
    requires ValidConfig(c) && ValidStartDraw(c, len, d)
    requires ShortSequence(c, len)
    ensures forall t: nat :: t in Covered(OverlapBlocks(c, len, d)) <==> t < FallbackBlockSize && t < len
  {
    assert OverlapBlocks(c, len, d) == [Block(0, Min(FallbackBlockSize, len))];
    CoveredOne(Block(0, Min(FallbackBlockSize, len)));
  }

  /** Every position the overlap planner masks lies inside the sequence. */
  lemma OverlapInBounds(c: MaskConfig, len: nat, d: Draw)
    requires ValidConfig(c) && ValidStartDraw(c, len, d)
    ensures forall t: nat :: t in Covered(OverlapBlocks(c, len, d)) ==> t < len
  {
  }

  /** Outside the fallback the clamp at `len` never shortens a block: every start is below
      `len - block_size`, so every block has the full configured width. */
  lemma OverlapFullWidth(c: MaskConfig, len: nat, d: Draw)
    requires ValidConfig(c) && ValidStartDraw(c, len, d)
    requires !ShortSequence(c, len)
    ensures forall j :: 0 <= j < |OverlapBlocks(c, len, d)| ==>
              Width(OverlapBlocks(c, len, d)[j]) == c.blockSize
  {
  }

  /** A zero patch count contributes no block. */
  lemma OverlapZeroPatches(c: MaskConfig, len: nat, d: Draw)
    requires ValidConfig(c) && ValidStartDraw(c, len, d)
    requires !ShortSequence(c, len) && d.numPatches == 0
    ensures OverlapBlocks(c, len, d) == []
  {
  }

  // ---------------------------------------------------------------------------
  // Arithmetic helpers

  lemma MulMono(a: nat, b: nat, m: nat)
    requires a <= b
    ensures a * m <= b * m
  {
  }

  lemma DivLowerBound(x: nat, d: nat, q: nat)
    requires d >= 1 && d * q <= x
    ensures x / d >= q
  {
    if x / d < q {
      assert x < (x / d) * d + d;
      MulMono(x / d + 1, q, d);
    }
  }

  lemma DivMulBound(x: nat, d: nat)
    requires d >= 1
    ensures (x / d) * d <= x
  {
  }

  lemma MulDivCancel(k: nat, d: nat)
    requires d >= 1
    ensures (k * d) % d == 0 && (k * d) / d == k
  {
    var x := k * d;
    var q, r := x / d, x % d;
    assert x == q * d + r && 0 <= r < d;
    if q < k {
      MulMono(q + 1, k, d);
    } else if q > k {
      MulMono(k + 1, q, d);
    }
  }
}
