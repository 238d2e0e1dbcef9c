/**
 * `detail::probability_distribution` as the imperative dynamic program: a
 * bucket array of partial-sum probabilities, indexed from the running least
 * reachable score, is replaced row by row by a fresh array into which every
 * bucket adds its mass times each nucleotide's background weight.
 */
module DistributionMethod {
  import opened ScoreMatrix
  import opened Distribution
  import opened Enumeration

  /**
   * What bucket `i` of the new array holds once buckets `0..j-1` of
   * `d` have been spread completely and bucket `j` has been spread for the
   * nucleotides below `a`.
   */
  function Partial(d: seq<real>, r: ScoreRow, bg: Background, j: nat, a: nat, i: int): real
    requires j < |d| && a <= AlphabetSize
    decreases a
  {
    if a == 0 then StepAt(d[..j], r, bg, i)
    else Partial(d, r, bg, j, a - 1, i) + (if i == j + Offset(r, a - 1) then Weigh(bg[a - 1], d[j]) else 0.0)
  }

  /** Adding bucket `j` of `d` for one nucleotide weighted `w` and placed at `off`. */
  lemma PickExtend(d: seq<real>, j: nat, off: nat, w: real, i: int)
    requires j < |d|
    ensures Weigh(w, Pick(d[..j + 1], off, i))
         == Weigh(w, Pick(d[..j], off, i)) + (if i == j + off then Weigh(w, d[j]) else 0.0)
  {
  }

  /** Once bucket `j` has been spread for all four nucleotides, buckets `0..j` have been spread. */
  lemma PartialComplete(d: seq<real>, r: ScoreRow, bg: Background, j: nat, i: int)
    requires j < |d|
    ensures Partial(d, r, bg, j, AlphabetSize, i) == StepAt(d[..j + 1], r, bg, i)
  {
    PickExtend(d, j, Offset(r, 0), bg[0], i);
    PickExtend(d, j, Offset(r, 1), bg[1], i);
    PickExtend(d, j, Offset(r, 2), bg[2], i);
    PickExtend(d, j, Offset(r, 3), bg[3], i);
  }

  /**
   * One row of the dynamic program: a new bucket array as wide as `d` plus the
   * row's span, into which bucket `j` of `d` adds `bg[a] * d[j]` at
   * `j + r[a] - RowMin(r)` for each nucleotide `a`.
   */
  method ConvolveRow(d: array<real>, r: ScoreRow, bg: Background) returns (e: array<real>)
    ensures fresh(e)
    ensures e[..] == Step(d[..], r, bg)
  {
    var width := d.Length + RowMax(r) - RowMin(r);
    e := new real[width](_ => 0.0);
    var j := 0;
    while j < d.Length
      invariant 0 <= j <= d.Length
      invariant forall i :: 0 <= i < e.Length ==> e[i] == StepAt(d[..j], r, bg, i)
    {
      var a := 0;
      while a < AlphabetSize
        invariant 0 <= a <= AlphabetSize
        invariant forall i :: 0 <= i < e.Length ==> e[i] == Partial(d[..], r, bg, j, a, i)
      {
        var k := j + r[a] - RowMin(r);
        e[k] := e[k] + Weigh(bg[a], d[j]);
        a := a + 1;
      }
      forall i | 0 <= i < e.Length
        ensures e[i] == StepAt(d[..j + 1], r, bg, i)
      {
        PartialComplete(d[..], r, bg, j, i);
        assert d[..][..j + 1] == d[..j + 1];
      }
      j := j + 1;
    }
    forall i | 0 <= i < e.Length
      ensures e[i] == Step(d[..], r, bg)[i]
    {
      StepIndex(d[..], r, bg, i);
      assert d[..d.Length] == d[..];
    }
  }

  /** The matrix with one more row: its distribution is one more convolution step. */
  lemma DistPrefix(m: seq<ScoreRow>, bg: Background, i: nat)
    requires i < |m|
    ensures Dist(m[..i + 1], bg) == Step(Dist(m[..i], bg), m[i], bg)
  {
    assert m[..i + 1][..i] == m[..i];
  }

  /**
   * The exact score distribution of `m`: starting from certainty of score 0,
   * each row replaces the bucket array by its convolution with that row.
   * Entry `k` of the result is the background weight of all the `4^|m|`
   * sequences whose total is `MinScore(m) + k`, the result spans every total
   * from the least to the greatest, and it sums to 1 under a background that
   * does.
   */
  method ProbabilityDistribution(m: seq<ScoreRow>, bg: Background) returns (p: seq<real>)
    ensures p == Dist(m, bg)
    ensures |p| == MaxScore(m) - MinScore(m) + 1
    ensures forall k :: Pick(p, MinScore(m), k) == Mass(m, bg, k)
    ensures BackgroundSum(bg) == 1.0 ==> Sum(p) == 1.0
    ensures NonNegative(bg) ==> forall i :: 0 <= i < |p| ==> p[i] >= 0.0
  {
    var buckets := new real[1](_ => 1.0);
    var i := 0;
    while i < |m|
      invariant 0 <= i <= |m|
      invariant buckets[..] == Dist(m[..i], bg)
    {
      buckets := ConvolveRow(buckets, m[i], bg);
      DistPrefix(m, bg, i);
      i := i + 1;
    }
    assert m[..|m|] == m;
    p := buckets[..];
    forall k
      ensures Pick(p, MinScore(m), k) == Mass(m, bg, k)
    {
      DistIsMass(m, bg, k);
    }
    if BackgroundSum(bg) == 1.0 {
      DistSumsToOne(m, bg);
    }
    if NonNegative(bg) {
      DistNonNegative(m, bg);
    }
  }
}
