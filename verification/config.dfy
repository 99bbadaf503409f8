/** Configuration of the random block masking module. */
module Config {

  /** A non-negative rational `num / den`. The module's float parameters `mask_prob` and
      `max_mask_ratio` are held this way so that products, ceilings and comparisons are exact. */
  datatype Ratio = Ratio(num: nat, den: nat)

  predicate ValidRatio(q: Ratio) {
    q.den >= 1
  }

  function ToReal(q: Ratio): real
    requires ValidRatio(q)
  {
    q.num as real / q.den as real
  }

  /** The constructor arguments that drive the planner: nominal block width, target masked
      fraction, the ratio that decides the short-sequence fallback, and the planner variant. */
  datatype MaskConfig = MaskConfig(blockSize: nat, maskProb: Ratio, maxMaskRatio: Ratio, allowOverlap: bool)

  /** A usable configuration: a positive block width (a zero width divides by zero when the patch
      count is computed and leaves `randint(0, 0)` an empty range) and well-formed rationals. */
  predicate ValidConfig(c: MaskConfig) {
    && c.blockSize >= 1
    && ValidRatio(c.maskProb)
    && ValidRatio(c.maxMaskRatio)
  }

  /** The constructor defaults: block 48, mask_prob 0.5, max_mask_ratio 0.8, no overlap. */
  function DefaultConfig(): MaskConfig {
    MaskConfig(48, Ratio(1, 2), Ratio(4, 5), false)
  }

  /** A rational at most one, as a probability or a ratio of a length is expected to be. */
  predicate AtMostOne(q: Ratio) {
    q.num <= q.den
  }
}
