/** `ConvFeatureMaksingWrapper`: runs the upstream feature extractor, masks its output when
    masking is enabled, and caches the unmasked features and the mask of the last call. */
module MaskingWrapper {
  import opened Outcomes
  import opened Config
  import opened Spans
  import opened Planner
  import opened BatchMask

  /** The wrapper's mutable attributes: `apply_mask`, `curr_feat` and `curr_mask`. */
  datatype WrapperState<T> = WrapperState(applyMask: bool, currFeat: Option<Tensor<T>>, currMask: Option<Tensor<real>>)

  /** State right after construction: masking off, nothing cached. */
  function InitialState<T>(): WrapperState<T> {
    WrapperState(false, None, None)
  }

  /** `set_masking_enabled` changes the flag and nothing else. */
  function SetMaskingEnabled<T>(st: WrapperState<T>, on: bool): (r: WrapperState<T>)
    ensures r.applyMask == on
    ensures r.currFeat == st.currFeat && r.currMask == st.currMask
  {
    st.(applyMask := on)
  }

  function GetCurrentMask<T>(st: WrapperState<T>): Option<Tensor<real>> {
    st.currMask
  }

  function GetCurrentFeat<T>(st: WrapperState<T>): Option<Tensor<T>> {
    st.currFeat
  }

  /** What one forward call leaves behind: the new state, the returned features and lengths. */
  datatype Step<T> = Step(state: WrapperState<T>, feats: Tensor<T>, lengths: seq<nat>)

  /** The upstream extractor is an arbitrary function of the raw input and its lengths; the
      model only asks that its features have the shape the masking call is given, and, when
      masking is on, one length and one in-range draw per sequence. */
  predicate ForwardReady<X, T>(st: WrapperState<T>, preEncode: (X, seq<nat>) -> (Tensor<T>, seq<nat>), x: X,
                               lengths: seq<nat>, c: MaskConfig, s: Dims, draws: seq<Draw>, emb: seq<T>)
  {
    && ValidConfig(c) && |emb| == s.dim
    && HasShape(preEncode(x, lengths).0, s)
    && (st.applyMask ==> |preEncode(x, lengths).1| == s.batch && ValidDraws(c, preEncode(x, lengths).1, draws))
  }

  /** `forward`: cache the extractor's features unconditionally, then either mask them and cache
      the mask, or return them untouched and cache an all-zero mask. Lengths pass through. */
  function Forward<X, T>(st: WrapperState<T>, preEncode: (X, seq<nat>) -> (Tensor<T>, seq<nat>), x: X,
                         lengths: seq<nat>, c: MaskConfig, s: Dims, draws: seq<Draw>, emb: seq<T>): (r: Result<Step<T>>)
    requires ForwardReady(st, preEncode, x, lengths, c, s, draws, emb)
    ensures r.Ok? ==> r.value.lengths == preEncode(x, lengths).1
    ensures r.Ok? ==> r.value.state.currFeat == Some(preEncode(x, lengths).0)
    ensures r.Ok? ==> r.value.state.applyMask == st.applyMask
    ensures r.Ok? ==> r.value.state.currMask.Some? && HasShape(r.value.state.currMask.value, s)
    ensures !st.applyMask ==> r.Ok? && r.value.feats == preEncode(x, lengths).0
                              && r.value.state.currMask == Some(Zeros(s))
    ensures st.applyMask ==> (r.Ok? <==> RandomBlockMask(c, preEncode(x, lengths).0, s, preEncode(x, lengths).1, draws, emb).Ok?)
  {
    var (feats, outLengths) := preEncode(x, lengths);
    if st.applyMask then
      match RandomBlockMask(c, feats, s, outLengths, draws, emb)
      case Err(e) => Err(e)
      case Ok((masked, mask)) => Ok(Step(WrapperState(true, Some(feats), Some(mask)), masked, outLengths))
    else
      Ok(Step(WrapperState(false, Some(feats), Some(Zeros(s))), feats, outLengths))
  }

  /** A freshly built wrapper does not mask: its first call returns the extractor's features and
      both getters then report those features and an all-zero mask. */
  lemma FreshWrapperDoesNotMask<X, T>(preEncode: (X, seq<nat>) -> (Tensor<T>, seq<nat>), x: X,
                                      lengths: seq<nat>, c: MaskConfig, s: Dims, draws: seq<Draw>, emb: seq<T>)
    requires ForwardReady(InitialState(), preEncode, x, lengths, c, s, draws, emb)
    ensures var r := Forward(InitialState(), preEncode, x, lengths, c, s, draws, emb);
            && r.Ok?
            && r.value.feats == preEncode(x, lengths).0
            && GetCurrentFeat(r.value.state) == Some(preEncode(x, lengths).0)
            && GetCurrentMask(r.value.state) == Some(Zeros(s))
            && forall b, d, t :: 0 <= b < s.batch && 0 <= d < s.dim && 0 <= t < s.time ==>
                 GetCurrentMask(r.value.state).value[b][d][t] == 0.0
  {
  }

  /** After enabling masking, a successful call caches the unmasked features, returns the
      embedding and caches a 1 at every planned `(b, :, t)`, and keeps the input value with a
      cached 0 everywhere else. */
  lemma EnabledForwardCachesMask<X, T>(st: WrapperState<T>, preEncode: (X, seq<nat>) -> (Tensor<T>, seq<nat>), x: X,
                                       lengths: seq<nat>, c: MaskConfig, s: Dims, draws: seq<Draw>, emb: seq<T>,
                                       b: nat, d: nat, t: nat)
    requires ForwardReady(SetMaskingEnabled(st, true), preEncode, x, lengths, c, s, draws, emb)
    requires Forward(SetMaskingEnabled(st, true), preEncode, x, lengths, c, s, draws, emb).Ok?
    requires b < s.batch && d < s.dim && t < s.time
    ensures var feats := preEncode(x, lengths).0;
            var plans := preEncode(x, lengths).1;
            var r := Forward(SetMaskingEnabled(st, true), preEncode, x, lengths, c, s, draws, emb).value;
            && GetCurrentFeat(r.state) == Some(feats)
            && GetCurrentMask(r.state).Some?
            && (t in Covered(PlanSequence(c, plans[b], draws[b])) ==>
                  r.feats[b][d][t] == emb[d] && GetCurrentMask(r.state).value[b][d][t] == 1.0)
            && (t !in Covered(PlanSequence(c, plans[b], draws[b])) ==>
                  r.feats[b][d][t] == feats[b][d][t] && GetCurrentMask(r.state).value[b][d][t] == 0.0)
  {
    var feats := preEncode(x, lengths).0;
    var plans := preEncode(x, lengths).1;
    EnabledForwardIsMasking(st, preEncode, x, lengths, c, s, draws, emb);
    RandomBlockMaskContents(c, feats, s, plans, draws, emb, b, d, t);
  }

  /** With masking enabled, a successful call returns exactly what the masking module returns
      and caches its mask. */
  lemma EnabledForwardIsMasking<X, T>(st: WrapperState<T>, preEncode: (X, seq<nat>) -> (Tensor<T>, seq<nat>), x: X,
                                      lengths: seq<nat>, c: MaskConfig, s: Dims, draws: seq<Draw>, emb: seq<T>)
    requires ForwardReady(SetMaskingEnabled(st, true), preEncode, x, lengths, c, s, draws, emb)
    requires Forward(SetMaskingEnabled(st, true), preEncode, x, lengths, c, s, draws, emb).Ok?
    ensures var feats := preEncode(x, lengths).0;
            var plans := preEncode(x, lengths).1;
            var r := Forward(SetMaskingEnabled(st, true), preEncode, x, lengths, c, s, draws, emb).value;
            var m := RandomBlockMask(c, feats, s, plans, draws, emb);
            m.Ok? && r.feats == m.value.0 && r.state.currMask == Some(m.value.1)
  {
  }
}
