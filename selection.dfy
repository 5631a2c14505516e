/** The colour-selection rules of the palette generators: the light / dark /
    bold filter, the fallback to the whole palette, the loop that keeps the
    best-scoring trial, and the sweep over cluster counts.  The clustering
    calls that produce the trial palettes are function parameters. */
module Selection {
  import opened Wrappers
  import opened Sequences
  import opened Colors

  // ----- _filter_colors -----

  datatype Flags = Flags(light: bool, dark: bool, bold: bool)

  /** Brightness floor for `light`, brightness ceiling for `dark`,
      saturation floor for `bold`. */
  datatype Thresholds = Thresholds(light: real, dark: real, bold: real)

  /** The keyword defaults of `_filter_colors`; neither generator overrides them. */
  const DefaultThresholds := Thresholds(0.6, 0.4, 0.6)

  function AnyFlag(f: Flags): bool {
    f.light || f.dark || f.bold
  }

  /** The first mask step: applies only when `light` is set without `dark`. */
  function LightTest(f: Flags, t: Thresholds): Hsv -> bool {
    (c: Hsv) => !(f.light && !f.dark) || c.v >= t.light
  }

  /** The second mask step: applies only when `dark` is set without `light`. */
  function DarkTest(f: Flags, t: Thresholds): Hsv -> bool {
    (c: Hsv) => !(f.dark && !f.light) || c.v <= t.dark
  }

  /** The third mask step: applies whenever `bold` is set. */
  function BoldTest(f: Flags, t: Thresholds): Hsv -> bool {
    (c: Hsv) => !f.bold || c.s >= t.bold
  }

  /** A colour survives the mask when it passes all three steps. */
  function Passes(f: Flags, t: Thresholds): Hsv -> bool {
    (c: Hsv) => LightTest(f, t)(c) && DarkTest(f, t)(c) && BoldTest(f, t)(c)
  }

  /** What `_filter_colors` returns: the input when no flag is set, else the
      colours that pass the mask, else (nothing passes) the input again. */
  function FilteredColors(colors: seq<Hsv>, f: Flags, t: Thresholds): seq<Hsv> {
    if !AnyFlag(f) then colors
    else
      var kept := Filter(colors, Passes(f, t));
      if |kept| > 0 then kept else colors
  }

  /** `mask &= test`: one vectorised narrowing step, in place. */
  method Narrow(mask: array<bool>, colors: seq<Hsv>, test: Hsv -> bool)
    requires mask.Length == |colors|
    modifies mask
    ensures forall i :: 0 <= i < mask.Length ==> mask[i] == (old(mask[i]) && test(colors[i]))
  {
    for i := 0 to mask.Length
      invariant forall j :: 0 <= j < i ==> mask[j] == (old(mask[j]) && test(colors[j]))
      invariant forall j :: i <= j < mask.Length ==> mask[j] == old(mask[j])
    {
      mask[i] := mask[i] && test(colors[i]);
    }
  }

  /** `colors[mask]`: the colours whose mask bit is set, in order. */
  method Select(colors: seq<Hsv>, mask: array<bool>, ghost test: Hsv -> bool) returns (r: seq<Hsv>)
    requires mask.Length == |colors|
    requires forall i :: 0 <= i < |colors| ==> mask[i] == test(colors[i])
    ensures r == Filter(colors, test)
  {
    r := [];
    for i := 0 to |colors|
      invariant r == Filter(colors[..i], test)
    {
      assert colors[..i + 1] == colors[..i] + [colors[i]];
      FilterSnoc(colors[..i], colors[i], test);
      if mask[i] {
        r := r + [colors[i]];
      }
    }
    assert colors[..|colors|] == colors;
  }

  /** `_filter_colors`, mask by mask. */
  method FilterColors(colors: seq<Hsv>, f: Flags, t: Thresholds) returns (r: seq<Hsv>)
    ensures r == FilteredColors(colors, f, t)
  {
    if !AnyFlag(f) {
      return colors;
    }
    var mask := new bool[|colors|](_ => true);
    if f.light && !f.dark {
      Narrow(mask, colors, LightTest(f, t));
    }
    assert forall i :: 0 <= i < |colors| ==> mask[i] == LightTest(f, t)(colors[i]);
    if f.dark && !f.light {
      Narrow(mask, colors, DarkTest(f, t));
    }
    assert forall i :: 0 <= i < |colors| ==>
        mask[i] == (LightTest(f, t)(colors[i]) && DarkTest(f, t)(colors[i]));
    if f.bold {
      Narrow(mask, colors, BoldTest(f, t));
    }
    assert forall i :: 0 <= i < |colors| ==> mask[i] == Passes(f, t)(colors[i]);
    var filtered := Select(colors, mask, Passes(f, t));
    r := if |filtered| > 0 then filtered else colors;
  }

  /** What the filter keeps: the input itself without flags; otherwise exactly
      the passing colours when there are any and the whole input when there
      are none.  Either way an order-preserving selection of the input that is
      non-empty whenever the input is. */
  lemma FilteredColorsSpec(colors: seq<Hsv>, f: Flags, t: Thresholds)
    ensures !AnyFlag(f) ==> FilteredColors(colors, f, t) == colors
    ensures Subsequence(FilteredColors(colors, f, t), colors)
    ensures |colors| > 0 ==> |FilteredColors(colors, f, t)| > 0
    ensures AnyFlag(f) && (exists i :: 0 <= i < |colors| && Passes(f, t)(colors[i])) ==>
              forall c :: c in FilteredColors(colors, f, t) <==> c in colors && Passes(f, t)(c)
    ensures AnyFlag(f) && (forall i :: 0 <= i < |colors| ==> !Passes(f, t)(colors[i])) ==>
              FilteredColors(colors, f, t) == colors
  {
    var kept := Filter(colors, Passes(f, t));
    FilterIsSubsequence(colors, Passes(f, t));
    SubsequenceRefl(colors);
    FilterMembers(colors, Passes(f, t));
    if |kept| > 0 {
      assert kept[0] in kept;
      var i :| 0 <= i < |colors| && colors[i] == kept[0];
      assert Passes(f, t)(colors[i]);
    }
  }

  /** With both `light` and `dark` set neither brightness step applies: the
      result is what `bold` alone (or no flag at all) gives. */
  lemma LightAndDarkCancel(colors: seq<Hsv>, bold: bool, t: Thresholds)
    ensures FilteredColors(colors, Flags(true, true, bold), t) == FilteredColors(colors, Flags(false, false, bold), t)
  {
    var both, neither := Flags(true, true, bold), Flags(false, false, bold);
    forall i | 0 <= i < |colors|
      ensures Passes(both, t)(colors[i]) == Passes(neither, t)(colors[i])
      ensures !bold ==> Passes(both, t)(colors[i])
    {
      var c := colors[i];
      assert LightTest(both, t)(c) && DarkTest(both, t)(c);
      assert LightTest(neither, t)(c) && DarkTest(neither, t)(c);
      assert BoldTest(both, t)(c) == BoldTest(neither, t)(c);
    }
    FilterAgree(colors, Passes(both, t), Passes(neither, t));
    if !bold {
      FilterAll(colors, Passes(both, t));
    }
  }

  // ----- the pool a trial clusters (get_distinct_colors / the hue loop) -----

  /** The filtered palette, or the whole palette when fewer than `n` colours
      survive the filter. */
  function ReclusterPool(colors: seq<Hsv>, f: Flags, t: Thresholds, n: int): (r: seq<Hsv>)
    ensures |FilteredColors(colors, f, t)| >= n ==> r == FilteredColors(colors, f, t)
    ensures |FilteredColors(colors, f, t)| < n ==> r == colors
    ensures Subsequence(r, colors)
    ensures |colors| >= n ==> |r| >= n
    ensures |colors| > 0 ==> |r| > 0
  {
    FilteredColorsSpec(colors, f, t);
    SubsequenceRefl(colors);
    var filtered := FilteredColors(colors, f, t);
    if |filtered| < n then colors else filtered
  }

  // ----- the best-trial loop -----

  /** Why a generator gives no palette: the clustering library rejects a
      cluster count below 1, the Euclidean variant fails on a missing best
      trial (a `TypeError`), the hue variant reports it (a `ValueError`). */
  datatype SelectionError = ClusterCountRejected | NoTrialKept | NoDistinctHues

  /** Which candidate palettes have at least `n` colours. */
  function Eligible(cmaps: seq<seq<Hsv>>, n: int): (e: seq<bool>)
    ensures |e| == |cmaps|
  {
    seq(|cmaps|, i requires 0 <= i < |cmaps| => |cmaps[i]| >= n)
  }

  /** Trial `k` is the one kept by a strict `>` scan that starts from 0: it is
      eligible, scores above 0, scores at least as much as every eligible
      trial, and strictly more than every eligible trial before it. */
  predicate IsBest(eligible: seq<bool>, scores: seq<real>, k: int) {
    0 <= k < |eligible| && k < |scores| && eligible[k] && scores[k] > 0.0
    && (forall j :: 0 <= j < |eligible| && j < |scores| && eligible[j] ==> scores[j] <= scores[k])
    && (forall j :: 0 <= j < k && eligible[j] ==> scores[j] < scores[k])
  }

  /** No eligible trial scores above 0, so the scan keeps nothing. */
  predicate NoneKept(eligible: seq<bool>, scores: seq<real>) {
    forall j :: 0 <= j < |eligible| && j < |scores| && eligible[j] ==> scores[j] <= 0.0
  }

  /** `b` is the trial palette of a best candidate. */
  ghost predicate KeptTrial(eligible: seq<bool>, scores: seq<real>, trials: seq<seq<Hsv>>, b: seq<Hsv>) {
    exists k :: IsBest(eligible, scores, k) && k < |trials| && b == trials[k]
  }

  ghost predicate Outcome(eligible: seq<bool>, scores: seq<real>, trials: seq<seq<Hsv>>, best: Option<seq<Hsv>>) {
    match best
    case None => NoneKept(eligible, scores)
    case Some(b) => KeptTrial(eligible, scores, trials, b)
  }

  /** At most one candidate is the best: the earliest of the top scores. */
  lemma BestIsUnique(eligible: seq<bool>, scores: seq<real>, k1: int, k2: int)
    requires IsBest(eligible, scores, k1) && IsBest(eligible, scores, k2)
    ensures k1 == k2
  {
  }

  /** The scan's outcome is a function of the eligibility and the scores. */
  lemma OutcomeIsDeterministic(eligible: seq<bool>, scores: seq<real>, trials: seq<seq<Hsv>>,
                               b1: Option<seq<Hsv>>, b2: Option<seq<Hsv>>)
    requires Outcome(eligible, scores, trials, b1) && Outcome(eligible, scores, trials, b2)
    ensures b1 == b2
  {
    if b1.Some? && b2.Some? {
      var k1 :| IsBest(eligible, scores, k1) && k1 < |trials| && b1.value == trials[k1];
      var k2 :| IsBest(eligible, scores, k2) && k2 < |trials| && b2.value == trials[k2];
      BestIsUnique(eligible, scores, k1, k2);
    }
  }

  /** Scores 0.5, 0.9, 0.9 keep the second trial; all-zero scores keep none;
      a high score on a too-small palette is never looked at. */
  lemma EarliestTopScoreWins()
    ensures IsBest([true, true, true], [0.5, 0.9, 0.9], 1)
    ensures NoneKept([true, true], [0.0, 0.0])
    ensures IsBest([false, true], [5.0, 1.0], 1)
  {
  }

  /** The loop over the candidate palettes (in cluster-count order) shared by
      both generators: skip palettes with fewer than `n` colours, draw a trial
      from each of the others, keep it when it scores strictly above the best
      so far, starting from 0. */
  method KeepBestTrial(cmaps: seq<seq<Hsv>>, n: int, trial: seq<Hsv> -> seq<Hsv>, score: seq<Hsv> -> real)
    returns (best: Option<seq<Hsv>>)
    ensures Outcome(Eligible(cmaps, n), Map(Map(cmaps, trial), score), Map(cmaps, trial), best)
  {
    var maxScore := 0.0;
    best := None;
    ghost var k := 0;
    for i := 0 to |cmaps|
      invariant best.None? ==> maxScore == 0.0
      invariant best.None? ==> forall j :: 0 <= j < i && |cmaps[j]| >= n ==> score(trial(cmaps[j])) <= 0.0
      invariant best.Some? ==> 0 <= k < i && |cmaps[k]| >= n && best.value == trial(cmaps[k])
      invariant best.Some? ==> maxScore == score(trial(cmaps[k])) > 0.0
      invariant best.Some? ==> forall j :: 0 <= j < i && |cmaps[j]| >= n ==> score(trial(cmaps[j])) <= maxScore
      invariant best.Some? ==> forall j :: 0 <= j < k && |cmaps[j]| >= n ==> score(trial(cmaps[j])) < maxScore
    {
      if |cmaps[i]| < n {
        continue;
      }
      var distinct := trial(cmaps[i]);
      var d := score(distinct);
      if d > maxScore {
        maxScore := d;
        best := Some(distinct);
        k := i;
      }
    }
    var e, ts := Eligible(cmaps, n), Map(cmaps, trial);
    var s := Map(ts, score);
    assert forall j :: 0 <= j < |cmaps| ==> e[j] == (|cmaps[j]| >= n) && s[j] == score(trial(cmaps[j]));
    if best.Some? {
      assert IsBest(e, s, k) && best.value == ts[k];
    }
  }

  // ----- generate_distinct_optimal_cmap -----

  /** `get_distinct_colors`: `n` cluster centres of the pool. */
  function EuclideanTrial(cmap: seq<Hsv>, n: int, f: Flags, t: Thresholds,
                          cluster: (seq<Hsv>, int) -> seq<Hsv>): seq<Hsv> {
    cluster(ReclusterPool(cmap, f, t, n), n)
  }

  function EuclideanTrialOf(n: int, f: Flags, t: Thresholds, cluster: (seq<Hsv>, int) -> seq<Hsv>): seq<Hsv> -> seq<Hsv> {
    (cmap: seq<Hsv>) => EuclideanTrial(cmap, n, f, t, cluster)
  }

  /** The best-trial loop of `generate_distinct_optimal_cmap` over the
      candidate palettes, scored by the (opaque) total Euclidean distance. */
  method DistinctOptimalSelection(cmaps: seq<seq<Hsv>>, n: int, f: Flags,
                                  cluster: (seq<Hsv>, int) -> seq<Hsv>, score: seq<Hsv> -> real)
    returns (res: Result<seq<Hsv>, SelectionError>)
    ensures n < 1 && |cmaps| > 0 ==> res == Failure(ClusterCountRejected)
    ensures n >= 1 || |cmaps| == 0 ==>
              var ts := Map(cmaps, EuclideanTrialOf(n, f, DefaultThresholds, cluster));
              var s := Map(ts, score);
              (res.Success? ==> KeptTrial(Eligible(cmaps, n), s, ts, res.value))
              && (res.Failure? ==> res.error == NoTrialKept && NoneKept(Eligible(cmaps, n), s))
  {
    if n < 1 && |cmaps| > 0 {
      // every palette qualifies, and the first clustering call rejects `n`
      return Failure(ClusterCountRejected);
    }
    var best := KeepBestTrial(cmaps, n, EuclideanTrialOf(n, f, DefaultThresholds, cluster), score);
    if best.None? {
      return Failure(NoTrialKept);
    }
    return Success(best.value);
  }

  // ----- generate_hue_distinct_optimal_cmap -----

  /** `get_hue_distinct_colors` on the pool: every hue-cluster centre snapped
      to the nearest colour of the pool (an empty pool, which no eligible
      palette gives, has nothing to snap to). */
  function HueTrial(cmap: seq<Hsv>, n: int, f: Flags, t: Thresholds,
                    centers: (seq<real>, int) -> seq<real>): seq<Hsv> {
    var pool := ReclusterPool(cmap, f, t, n);
    if |pool| == 0 then [] else Snap(pool, centers(Hues(pool), n))
  }

  function HueTrialOf(n: int, f: Flags, t: Thresholds, centers: (seq<real>, int) -> seq<real>): seq<Hsv> -> seq<Hsv> {
    (cmap: seq<Hsv>) => HueTrial(cmap, n, f, t, centers)
  }

  /** `_hue_distinctness` of a trial palette. */
  function HueScore(colors: seq<Hsv>): real {
    HueDistinctness(Hues(colors))
  }

  /** A hue trial takes one colour per centre, each a colour of the palette,
      nearest in hue to its centre among the pool. */
  lemma HueTrialFromPalette(cmap: seq<Hsv>, n: int, f: Flags, t: Thresholds,
                            centers: (seq<real>, int) -> seq<real>)
    requires |cmap| > 0
    ensures var pool := ReclusterPool(cmap, f, t, n);
            var r := HueTrial(cmap, n, f, t, centers);
            |r| == |centers(Hues(pool), n)|
            && (forall k :: 0 <= k < |r| ==> r[k] in cmap)
            && (forall k, j :: 0 <= k < |r| && 0 <= j < |pool| ==>
                  Abs(r[k].h - centers(Hues(pool), n)[k]) <= Abs(pool[j].h - centers(Hues(pool), n)[k]))
  {
    var pool := ReclusterPool(cmap, f, t, n);
    var cs := centers(Hues(pool), n);
    var r := HueTrial(cmap, n, f, t, centers);
    forall k | 0 <= k < |r|
      ensures r[k] in cmap
    {
      assert FirstNearest(pool, cs[k], r[k]);
      var i :| 0 <= i < |pool| && r[k] == pool[i] && NoCloserBefore(pool, cs[k], i);
      SubsequenceMembers(pool, cmap, r[k]);
    }
  }

  /** The best-trial loop of `generate_hue_distinct_optimal_cmap`, scored by
      the total circular hue distance. */
  method HueDistinctOptimalSelection(cmaps: seq<seq<Hsv>>, n: int, f: Flags,
                                     centers: (seq<real>, int) -> seq<real>)
    returns (res: Result<seq<Hsv>, SelectionError>)
    ensures n < 1 && |cmaps| > 0 ==> res == Failure(ClusterCountRejected)
    ensures n >= 1 || |cmaps| == 0 ==>
              var ts := Map(cmaps, HueTrialOf(n, f, DefaultThresholds, centers));
              var s := Map(ts, HueScore);
              (res.Success? ==> KeptTrial(Eligible(cmaps, n), s, ts, res.value))
              && (res.Failure? ==> res.error == NoDistinctHues && NoneKept(Eligible(cmaps, n), s))
  {
    if n < 1 && |cmaps| > 0 {
      return Failure(ClusterCountRejected);
    }
    var best := KeepBestTrial(cmaps, n, HueTrialOf(n, f, DefaultThresholds, centers), HueScore);
    if best.None? {
      return Failure(NoDistinctHues);
    }
    return Success(best.value);
  }

  /** A palette whose hues all coincide scores 0, so a run whose every trial
      is single-hued keeps none and fails. */
  lemma SingleHueScoresZero(colors: seq<Hsv>, h: real)
    requires forall i :: 0 <= i < |colors| ==> colors[i].h == h
    ensures HueScore(colors) == 0.0
  {
    var hues := Hues(colors);
    assert forall i :: 0 <= i < |hues| ==> hues[i] == h;
    ConstantMatrixSum(hues, hues, h);
  }

  lemma {:induction false} ConstantMatrixSum(xs: seq<real>, hues: seq<real>, h: real)
    requires forall i :: 0 <= i < |xs| ==> xs[i] == h
    requires forall i :: 0 <= i < |hues| ==> hues[i] == h
    ensures MatrixSum(xs, hues) == 0.0
  {
    if |xs| > 0 {
      ConstantRowSum(h, hues);
      ConstantMatrixSum(xs[1..], hues, h);
    }
  }

  lemma {:induction false} ConstantRowSum(h: real, hues: seq<real>)
    requires forall i :: 0 <= i < |hues| ==> hues[i] == h
    ensures RowSum(h, hues) == 0.0
  {
    if |hues| > 0 {
      ConstantRowSum(h, hues[1..]);
    }
  }

  // ----- generate_optimal_cmap -----

  /** The cluster counts tried, in order: 2, 3, ..., maxColors. */
  function ClusterCounts(maxColors: int): (r: seq<int>)
    ensures |r| == if maxColors < 2 then 0 else maxColors - 1
    ensures forall i :: 0 <= i < |r| ==> r[i] == i + 2
  {
    if maxColors < 2 then [] else ClusterCounts(maxColors - 1) + [maxColors]
  }

  /** `generate_optimal_cmap`: fit a palette for every cluster count (the fit
      gives the palette and its sum of squared distances), ask the elbow
      finder for the best count, and pick that palette when the finder names
      one of the counts tried. */
  method OptimalColormaps(maxColors: int, fit: int -> (seq<Hsv>, real), knee: (seq<int>, seq<real>) -> Option<int>)
    returns (cmaps: seq<seq<Hsv>>, ssd: seq<real>, best: Option<int>, chosen: Option<seq<Hsv>>)
    ensures |cmaps| == |ssd| == |ClusterCounts(maxColors)|
    ensures forall i :: 0 <= i < |cmaps| ==> cmaps[i] == fit(i + 2).0 && ssd[i] == fit(i + 2).1
    ensures best == knee(ClusterCounts(maxColors), ssd)
    ensures chosen.Some? <==> best.Some? && 2 <= best.value <= maxColors
    ensures chosen.Some? ==> chosen.value == fit(best.value).0
  {
    cmaps, ssd := [], [];
    var k := 2;
    while k <= maxColors
      invariant k >= 2 && |cmaps| == |ssd| == k - 2
      invariant k <= if maxColors < 2 then 2 else maxColors + 1
      invariant forall i :: 0 <= i < |cmaps| ==> cmaps[i] == fit(i + 2).0 && ssd[i] == fit(i + 2).1
      decreases maxColors - k
    {
      var fitted := fit(k);
      cmaps := cmaps + [fitted.0];
      ssd := ssd + [fitted.1];
      k := k + 1;
    }
    best := knee(ClusterCounts(maxColors), ssd);
    if best.Some? && 2 <= best.value <= maxColors {
      chosen := Some(cmaps[best.value - 2]);
    } else {
      chosen := None;
    }
  }
}
