/** Hue arithmetic of the distinct-colour selector: the circular hue
    distance, the total hue separation of a palette (`_hue_distinctness`)
    and the snap of a hue-cluster centre to the nearest sampled colour. */
module Colors {

  /** A colour by its HSV coordinates (as `colorsys.rgb_to_hsv` gives them:
      each in [0, 1], the hue in [0, 1)). */
  datatype Hsv = Hsv(h: real, s: real, v: real)

  function Abs(x: real): real {
    if x < 0.0 then -x else x
  }

  /** `min(|a - b|, 1 - |a - b|)`: the distance of two hues on the colour wheel. */
  function CircularDistance(a: real, b: real): (d: real)
    ensures 0.0 <= a < 1.0 && 0.0 <= b < 1.0 ==> 0.0 <= d <= 0.5
    ensures a == b ==> d == 0.0
  {
    var diff := Abs(a - b);
    if diff <= 1.0 - diff then diff else 1.0 - diff
  }

  lemma CircularDistanceSymmetric(a: real, b: real)
    ensures CircularDistance(a, b) == CircularDistance(b, a)
  {
  }

  /** The hue of every colour, in order. */
  function Hues(colors: seq<Hsv>): (r: seq<real>)
    ensures |r| == |colors|
  {
    seq(|colors|, i requires 0 <= i < |colors| => colors[i].h)
  }

  predicate HuesInRange(hues: seq<real>) {
    forall i :: 0 <= i < |hues| ==> 0.0 <= hues[i] < 1.0
  }

  /** One row of the distance matrix: the distances from `x` to every hue. */
  function RowSum(x: real, hues: seq<real>): real {
    if |hues| == 0 then 0.0 else CircularDistance(x, hues[0]) + RowSum(x, hues[1..])
  }

  /** The sum of the rows for `xs` against the columns `hues`. */
  function MatrixSum(xs: seq<real>, hues: seq<real>): real {
    if |xs| == 0 then 0.0 else RowSum(xs[0], hues) + MatrixSum(xs[1..], hues)
  }

  /** `_hue_distinctness`: the sum over the full symmetric matrix of circular
      hue distances, so every unordered pair counts twice. */
  function HueDistinctness(hues: seq<real>): real {
    MatrixSum(hues, hues)
  }

  lemma {:induction false} RowSumRemove(x: real, s: seq<real>, k: nat)
    requires k < |s|
    ensures RowSum(x, s) == CircularDistance(x, s[k]) + RowSum(x, s[..k] + s[k + 1..])
  {
    if k == 0 {
      assert s[..0] + s[1..] == s[1..];
    } else {
      RowSumRemove(x, s[1..], k - 1);
      var rest := s[1..][..k - 1] + s[1..][k..];
      assert s[..k] + s[k + 1..] == [s[0]] + rest;
      assert ([s[0]] + rest)[1..] == rest;
    }
  }

  lemma {:induction false} MatrixSumRemove(s: seq<real>, hues: seq<real>, k: nat)
    requires k < |s|
    ensures MatrixSum(s, hues) == RowSum(s[k], hues) + MatrixSum(s[..k] + s[k + 1..], hues)
  {
    if k == 0 {
      assert s[..0] + s[1..] == s[1..];
    } else {
      MatrixSumRemove(s[1..], hues, k - 1);
      var rest := s[1..][..k - 1] + s[1..][k..];
      assert s[..k] + s[k + 1..] == [s[0]] + rest;
      assert ([s[0]] + rest)[1..] == rest;
    }
  }

  /** Where `a[0]` sits in `b` when the two hold the same multiset. */
  lemma PermutationSplit(a: seq<real>, b: seq<real>) returns (k: nat)
    requires |a| > 0 && multiset(a) == multiset(b)
    ensures k < |b| && b[k] == a[0]
    ensures multiset(a[1..]) == multiset(b[..k] + b[k + 1..])
  {
    assert a == [a[0]] + a[1..];
    assert a[0] in multiset(b);
    var j :| 0 <= j < |b| && b[j] == a[0];
    k := j;
    assert b == b[..k] + [b[k]] + b[k + 1..];
    assert multiset(b) == multiset(b[..k]) + multiset{b[k]} + multiset(b[k + 1..]);
    assert multiset(b[..k] + b[k + 1..]) == multiset(b[..k]) + multiset(b[k + 1..]);
    assert multiset(a) == multiset{a[0]} + multiset(a[1..]);
    assert multiset(a[1..]) == multiset(a) - multiset{a[0]};
    assert multiset(b[..k] + b[k + 1..]) == multiset(b) - multiset{b[k]};
  }

  lemma {:induction false} RowSumPermutation(x: real, a: seq<real>, b: seq<real>)
    requires multiset(a) == multiset(b)
    ensures RowSum(x, a) == RowSum(x, b)
    decreases |a|
  {
    if |a| == 0 {
      assert |b| == |multiset(b)| == 0;
    } else {
      var k := PermutationSplit(a, b);
      RowSumRemove(x, b, k);
      RowSumPermutation(x, a[1..], b[..k] + b[k + 1..]);
    }
  }

  lemma {:induction false} MatrixSumRowPermutation(a: seq<real>, b: seq<real>, hues: seq<real>)
    requires multiset(a) == multiset(b)
    ensures MatrixSum(a, hues) == MatrixSum(b, hues)
    decreases |a|
  {
    if |a| == 0 {
      assert |b| == |multiset(b)| == 0;
    } else {
      var k := PermutationSplit(a, b);
      MatrixSumRemove(b, hues, k);
      MatrixSumRowPermutation(a[1..], b[..k] + b[k + 1..], hues);
    }
  }

  lemma {:induction false} MatrixSumColumnPermutation(xs: seq<real>, a: seq<real>, b: seq<real>)
    requires multiset(a) == multiset(b)
    ensures MatrixSum(xs, a) == MatrixSum(xs, b)
  {
    if |xs| > 0 {
      RowSumPermutation(xs[0], a, b);
      MatrixSumColumnPermutation(xs[1..], a, b);
    }
  }

  /** The score does not depend on the order of the colours. */
  lemma HueDistinctnessPermutation(a: seq<real>, b: seq<real>)
    requires multiset(a) == multiset(b)
    ensures HueDistinctness(a) == HueDistinctness(b)
  {
    MatrixSumRowPermutation(a, b, a);
    MatrixSumColumnPermutation(b, a, b);
  }

  lemma {:induction false} RowSumBounds(x: real, hues: seq<real>)
    requires 0.0 <= x < 1.0 && HuesInRange(hues)
    ensures 0.0 <= RowSum(x, hues) <= 0.5 * (|hues| as real)
  {
    if |hues| > 0 {
      RowSumBounds(x, hues[1..]);
    }
  }

  lemma {:induction false} MatrixSumBounds(xs: seq<real>, hues: seq<real>)
    requires HuesInRange(xs) && HuesInRange(hues)
    ensures 0.0 <= MatrixSum(xs, hues) <= 0.5 * ((|xs| * |hues|) as real)
  {
    if |xs| > 0 {
      RowSumBounds(xs[0], hues);
      MatrixSumBounds(xs[1..], hues);
      assert (|xs| - 1) * |hues| + |hues| == |xs| * |hues|;
    }
  }

  /** A row of a hue against columns that contain it: its own column adds 0,
      every other column at most 0.5. */
  lemma {:induction false} RowSumMemberBounds(x: real, hues: seq<real>)
    requires HuesInRange(hues) && x in hues
    ensures RowSum(x, hues) <= 0.5 * ((|hues| - 1) as real)
  {
    if hues[0] == x {
      RowSumBounds(x, hues[1..]);
    } else {
      assert x in hues[1..];
      RowSumMemberBounds(x, hues[1..]);
    }
  }

  lemma {:induction false} MatrixSumMemberBounds(xs: seq<real>, hues: seq<real>)
    requires HuesInRange(hues) && forall i :: 0 <= i < |xs| ==> xs[i] in hues
    ensures MatrixSum(xs, hues) <= 0.5 * ((|xs| * (|hues| - 1)) as real)
  {
    if |xs| > 0 {
      RowSumMemberBounds(xs[0], hues);
      MatrixSumMemberBounds(xs[1..], hues);
      assert (|xs| - 1) * (|hues| - 1) + (|hues| - 1) == |xs| * (|hues| - 1);
    }
  }

  /** For hues in [0, 1) every matrix term is in [0, 0.5] and the diagonal
      adds 0, so the score of n colours lies in [0, n * (n - 1) / 2]; two
      opposite hues reach the upper bound (`TwoHues`). */
  lemma HueDistinctnessBounds(hues: seq<real>)
    requires HuesInRange(hues)
    ensures 0.0 <= HueDistinctness(hues) <= 0.5 * ((|hues| * (|hues| - 1)) as real)
  {
    MatrixSumBounds(hues, hues);
    MatrixSumMemberBounds(hues, hues);
  }

  /** Two hues score twice their circular distance, at most 1, which two
      opposite hues (0 and 0.5) reach. */
  lemma TwoHues(a: real, b: real)
    requires 0.0 <= a < 1.0 && 0.0 <= b < 1.0
    ensures HueDistinctness([a, b]) == 2.0 * CircularDistance(a, b) <= 1.0
    ensures HueDistinctness([0.0, 0.5]) == 1.0
  {
    PairScore(a, b);
    PairScore(0.0, 0.5);
    CircularDistanceSymmetric(a, b);
  }

  lemma PairScore(a: real, b: real)
    ensures HueDistinctness([a, b]) == CircularDistance(a, b) + CircularDistance(b, a)
  {
    var s := [a, b];
    assert s[1..] == [b];
    assert [b][1..] == [];
    assert RowSum(a, [b]) == CircularDistance(a, b);
    assert RowSum(b, [b]) == 0.0;
    assert RowSum(a, s) == CircularDistance(a, b);
    assert RowSum(b, s) == CircularDistance(b, a);
    assert MatrixSum([b], s) == RowSum(b, s);
  }

  /** `np.argmin(np.abs(hues - c))`: the first index whose hue is nearest to `c`. */
  function NearestIndex(hues: seq<real>, c: real): (i: nat)
    requires |hues| > 0
    ensures i < |hues|
    ensures forall j :: 0 <= j < |hues| ==> Abs(hues[i] - c) <= Abs(hues[j] - c)
    ensures forall j :: 0 <= j < i ==> Abs(hues[j] - c) > Abs(hues[i] - c)
  {
    if |hues| == 1 then 0
    else
      var n := |hues| - 1;
      var k := NearestIndex(hues[..n], c);
      assert forall j :: 0 <= j < n ==> hues[..n][j] == hues[j];
      if Abs(hues[n] - c) < Abs(hues[k] - c) then n else k
  }

  /** Every colour before index `i` is strictly farther in hue from `c` than `colors[i]`. */
  predicate NoCloserBefore(colors: seq<Hsv>, c: real, i: int) {
    0 <= i < |colors| && forall j :: 0 <= j < i ==> Abs(colors[j].h - c) > Abs(colors[i].h - c)
  }

  /** `x` sits in `colors` at an index before which every colour is strictly
      farther in hue from `c`: with nearness, the first nearest colour. */
  predicate FirstNearest(colors: seq<Hsv>, c: real, x: Hsv) {
    exists i :: 0 <= i < |colors| && x == colors[i] && NoCloserBefore(colors, c, i)
  }

  /** `colors[[np.argmin(np.abs(hues - c)) for c in centers]]`: every hue-cluster
      centre is replaced by the sampled colour whose hue is nearest to it,
      the first such colour on a tie. */
  function Snap(colors: seq<Hsv>, centers: seq<real>): (r: seq<Hsv>)
    requires |colors| > 0
    ensures |r| == |centers|
    ensures forall k, j :: 0 <= k < |r| && 0 <= j < |colors| ==>
              Abs(r[k].h - centers[k]) <= Abs(colors[j].h - centers[k])
    ensures forall k :: 0 <= k < |r| ==>
              FirstNearest(colors, centers[k], r[k])
  {
    var hues := Hues(colors);
    var r := seq(|centers|, k requires 0 <= k < |centers| => colors[NearestIndex(hues, centers[k])]);
    SnapIsNearest(colors, centers, r);
    r
  }

  lemma SnapIsNearest(colors: seq<Hsv>, centers: seq<real>, r: seq<Hsv>)
    requires |colors| > 0 && |r| == |centers|
    requires forall k :: 0 <= k < |r| ==> r[k] == colors[NearestIndex(Hues(colors), centers[k])]
    ensures forall k, j :: 0 <= k < |r| && 0 <= j < |colors| ==>
              Abs(r[k].h - centers[k]) <= Abs(colors[j].h - centers[k])
    ensures forall k :: 0 <= k < |r| ==>
              FirstNearest(colors, centers[k], r[k])
  {
    var hues := Hues(colors);
    assert forall j :: 0 <= j < |colors| ==> hues[j] == colors[j].h;
    forall k | 0 <= k < |r|
      ensures FirstNearest(colors, centers[k], r[k])
    {
      var i := NearestIndex(hues, centers[k]);
      NearestIsFirst(colors, centers[k], i);
      assert r[k] == colors[i];
    }
  }

  lemma NearestIsFirst(colors: seq<Hsv>, c: real, i: nat)
    requires |colors| > 0 && i == NearestIndex(Hues(colors), c)
    ensures i < |colors| && NoCloserBefore(colors, c, i)
  {
    var hues := Hues(colors);
    assert forall j :: 0 <= j < |colors| ==> hues[j] == colors[j].h;
  }
}
