/**
 * The exact score distribution of a scaled matrix under a background model
 * (`detail::probability_distribution`), as a pure specification: the
 * distribution over partial sums is convolved with one row at a time.
 *
 * A distribution is a dense sequence of probabilities; entry `i` of the
 * distribution of matrix `m` is the probability of total score
 * `MinScore(m) + i`, and the sequence runs up to `MaxScore(m)`.
 */
module Distribution {
  import opened ScoreMatrix

  /** The background probabilities of A, C, G and T. */
  type Background = b: seq<real> | |b| == AlphabetSize witness [0.25, 0.25, 0.25, 0.25]

  /** The uniform background the tests use. */
  const Uniform: Background := [0.25, 0.25, 0.25, 0.25]

  function BackgroundSum(bg: Background): real
  {
    bg[0] + bg[1] + bg[2] + bg[3]
  }

  predicate NonNegative(bg: Background)
  {
    forall a :: 0 <= a < AlphabetSize ==> bg[a] >= 0.0
  }

  /** The entry of `d` that lands on index `i` when `d` is placed at offset `off`; 0 off its end. */
  function Pick(d: seq<real>, off: int, i: int): real
  {
    if 0 <= i - off < |d| then d[i - off] else 0.0
  }

  /** How far column `a` of a row lies above the row's minimum. */
  function Offset(r: ScoreRow, a: nat): nat
    requires a < AlphabetSize
  {
    r[a] - RowMin(r)
  }

  /**
   * Entry `i` after convolving `d` with row `r`: for each nucleotide `a`, the
   * mass that was at index `i - Offset(r, a)` weighted by `bg[a]`.
   */
  function StepAt(d: seq<real>, r: ScoreRow, bg: Background, i: int): real
  {
    Weigh(bg[0], Pick(d, Offset(r, 0), i)) + Weigh(bg[1], Pick(d, Offset(r, 1), i))
      + Weigh(bg[2], Pick(d, Offset(r, 2), i)) + Weigh(bg[3], Pick(d, Offset(r, 3), i))
  }

  /** The first `n` entries of a convolution step. */
  function StepPrefix(d: seq<real>, r: ScoreRow, bg: Background, n: nat): (e: seq<real>)
    ensures |e| == n
  {
    if n == 0 then [] else StepPrefix(d, r, bg, n - 1) + [StepAt(d, r, bg, n - 1)]
  }

  /** One row's convolution: the new distribution is as wide as the old one plus the row's span. */
  function Step(d: seq<real>, r: ScoreRow, bg: Background): (e: seq<real>)
    ensures |e| == |d| + RowMax(r) - RowMin(r)
  {
    StepPrefix(d, r, bg, |d| + RowMax(r) - RowMin(r))
  }

  lemma {:induction false} StepPrefixAt(d: seq<real>, r: ScoreRow, bg: Background, n: nat, i: nat)
    requires i < n
    ensures StepPrefix(d, r, bg, n)[i] == StepAt(d, r, bg, i)
  {
    if i < n - 1 {
      StepPrefixAt(d, r, bg, n - 1, i);
    }
  }

  /** Entry `i` of a convolution step is given by `StepAt`. */
  lemma StepIndex(d: seq<real>, r: ScoreRow, bg: Background, i: nat)
    requires i < |d| + RowMax(r) - RowMin(r)
    ensures Step(d, r, bg)[i] == StepAt(d, r, bg, i)
  {
    StepPrefixAt(d, r, bg, |d| + RowMax(r) - RowMin(r), i);
  }

  /**
   * The distribution of total scores: a point mass at 0 for the empty matrix,
   * then one convolution per row, in row order. Its length is one more than
   * the span between the least and greatest totals.
   */
  function Dist(m: seq<ScoreRow>, bg: Background): (p: seq<real>)
    ensures |p| == MaxScore(m) - MinScore(m) + 1
  {
    if m == [] then [1.0] else Step(Dist(m[..|m| - 1], bg), m[|m| - 1], bg)
  }

  function Weigh(w: real, x: real): real
  {
    w * x
  }

  function Sum(s: seq<real>): real
  {
    if s == [] then 0.0 else s[0] + Sum(s[1..])
  }

  /** `d` placed at offset `off` in a sequence of `n` entries, zero elsewhere. */
  function Shift(d: seq<real>, off: nat, n: nat): (e: seq<real>)
    ensures |e| == n
  {
    if n == 0 then [] else Shift(d, off, n - 1) + [Pick(d, off, n - 1)]
  }

  /** Every entry multiplied by `w`. */
  function Scale(s: seq<real>, w: real): (e: seq<real>)
    ensures |e| == |s|
  {
    if s == [] then [] else [Weigh(w, s[0])] + Scale(s[1..], w)
  }

  /** The entrywise sum of two sequences of one length. */
  function Plus(s: seq<real>, t: seq<real>): (e: seq<real>)
    requires |s| == |t|
    ensures |e| == |s|
  {
    if s == [] then [] else [s[0] + t[0]] + Plus(s[1..], t[1..])
  }

  function Zeros(n: nat): (z: seq<real>)
    ensures |z| == n
  {
    if n == 0 then [] else [0.0] + Zeros(n - 1)
  }

  lemma {:induction false} ShiftAt(d: seq<real>, off: nat, n: nat, i: nat)
    requires i < n
    ensures Shift(d, off, n)[i] == Pick(d, off, i)
  {
    if i < n - 1 {
      ShiftAt(d, off, n - 1, i);
    }
  }

  lemma {:induction false} ScaleAt(s: seq<real>, w: real, i: nat)
    requires i < |s|
    ensures Scale(s, w)[i] == Weigh(w, s[i])
  {
    if i > 0 {
      ScaleAt(s[1..], w, i - 1);
    }
  }

  lemma {:induction false} PlusAt(s: seq<real>, t: seq<real>, i: nat)
    requires |s| == |t| && i < |s|
    ensures Plus(s, t)[i] == s[i] + t[i]
  {
    if i > 0 {
      PlusAt(s[1..], t[1..], i - 1);
    }
  }

  lemma {:induction false} ZerosAt(n: nat, i: nat)
    requires i < n
    ensures Zeros(n)[i] == 0.0
  {
    if i > 0 {
      ZerosAt(n - 1, i - 1);
    }
  }

  lemma {:induction false} SumAppend(s: seq<real>, t: seq<real>)
    ensures Sum(s + t) == Sum(s) + Sum(t)
  {
    if s == [] {
      assert s + t == t;
    } else {
      SumAppend(s[1..], t);
      assert (s + t)[1..] == s[1..] + t;
    }
  }

  lemma {:induction false} SumZeros(n: nat)
    ensures Sum(Zeros(n)) == 0.0
  {
    if n > 0 {
      SumZeros(n - 1);
    }
  }

  /** Placing `d` inside a longer run of zeros keeps its sum. */
  lemma SumShift(d: seq<real>, off: nat, n: nat)
    requires off + |d| <= n
    ensures Sum(Shift(d, off, n)) == Sum(d)
  {
    var e, z := Shift(d, off, n), Zeros(off) + d + Zeros(n - off - |d|);
    forall i | 0 <= i < n
      ensures e[i] == z[i]
    {
      ShiftAt(d, off, n, i);
      if i < off {
        ZerosAt(off, i);
      } else if i >= off + |d| {
        ZerosAt(n - off - |d|, i - off - |d|);
      }
    }
    assert e == z;
    SumAppend(Zeros(off) + d, Zeros(n - off - |d|));
    SumAppend(Zeros(off), d);
    SumZeros(off);
    SumZeros(n - off - |d|);
  }

  lemma {:induction false} SumScale(s: seq<real>, w: real)
    ensures Sum(Scale(s, w)) == Weigh(w, Sum(s))
  {
    if s != [] {
      SumScale(s[1..], w);
      Distribute(w, s[0], Sum(s[1..]));
    }
  }

  lemma Distribute(w: real, a: real, b: real)
    ensures w * (a + b) == w * a + w * b
  {
  }

  lemma {:induction false} SumPlus(s: seq<real>, t: seq<real>)
    requires |s| == |t|
    ensures Sum(Plus(s, t)) == Sum(s) + Sum(t)
  {
    if s != [] {
      SumPlus(s[1..], t[1..]);
    }
  }

  /** A weighted shifted copy carries the weight times the mass of `d`. */
  lemma SumWeightedShift(d: seq<real>, off: nat, n: nat, w: real)
    requires off + |d| <= n
    ensures Sum(Scale(Shift(d, off, n), w)) == Weigh(w, Sum(d))
  {
    SumScale(Shift(d, off, n), w);
    SumShift(d, off, n);
  }

  /** Column `a`'s share of a convolution step: `d` shifted to column `a`'s offset, weighted by `bg[a]`. */
  function Column(d: seq<real>, r: ScoreRow, bg: Background, a: nat): (e: seq<real>)
    requires a < AlphabetSize
    ensures |e| == |d| + RowMax(r) - RowMin(r)
  {
    Scale(Shift(d, Offset(r, a), |d| + RowMax(r) - RowMin(r)), bg[a])
  }

  lemma ColumnAt(d: seq<real>, r: ScoreRow, bg: Background, a: nat, i: nat)
    requires a < AlphabetSize && i < |d| + RowMax(r) - RowMin(r)
    ensures Column(d, r, bg, a)[i] == Weigh(bg[a], Pick(d, Offset(r, a), i))
  {
    var n := |d| + RowMax(r) - RowMin(r);
    ScaleAt(Shift(d, Offset(r, a), n), bg[a], i);
    ShiftAt(d, Offset(r, a), n, i);
  }

  lemma ColumnSum(d: seq<real>, r: ScoreRow, bg: Background, a: nat)
    requires a < AlphabetSize
    ensures Sum(Column(d, r, bg, a)) == Weigh(bg[a], Sum(d))
  {
    SumWeightedShift(d, Offset(r, a), |d| + RowMax(r) - RowMin(r), bg[a]);
  }

  /** An entry of a convolution step is the sum of the four column shares at that index. */
  lemma StepAtColumns(d: seq<real>, r: ScoreRow, bg: Background, i: nat)
    requires i < |d| + RowMax(r) - RowMin(r)
    ensures StepAt(d, r, bg, i)
      == Column(d, r, bg, 0)[i] + Column(d, r, bg, 1)[i] + Column(d, r, bg, 2)[i] + Column(d, r, bg, 3)[i]
  {
    ColumnAt(d, r, bg, 0, i);
    ColumnAt(d, r, bg, 1, i);
    ColumnAt(d, r, bg, 2, i);
    ColumnAt(d, r, bg, 3, i);
  }

  /** A convolution step is the sum of its four column shares. */
  lemma StepIsColumns(d: seq<real>, r: ScoreRow, bg: Background)
    ensures Step(d, r, bg)
      == Plus(Plus(Plus(Column(d, r, bg, 0), Column(d, r, bg, 1)), Column(d, r, bg, 2)), Column(d, r, bg, 3))
  {
    var c0, c1, c2, c3 := Column(d, r, bg, 0), Column(d, r, bg, 1), Column(d, r, bg, 2), Column(d, r, bg, 3);
    var e, p := Step(d, r, bg), Plus(Plus(Plus(c0, c1), c2), c3);
    forall i | 0 <= i < |e|
      ensures e[i] == p[i]
    {
      StepIndex(d, r, bg, i);
      StepAtColumns(d, r, bg, i);
      PlusAt(c0, c1, i);
      PlusAt(Plus(c0, c1), c2, i);
      PlusAt(Plus(Plus(c0, c1), c2), c3, i);
    }
  }

  /** Four shares `b_i * t` whose weights add up to 1 add up to `t`. */
  lemma SharesOfOne(s: real, s0: real, s1: real, s2: real, s3: real,
                    b0: real, b1: real, b2: real, b3: real, t: real)
    requires s == s0 + s1 + s2 + s3 && b0 + b1 + b2 + b3 == 1.0
    requires s0 == Weigh(b0, t) && s1 == Weigh(b1, t) && s2 == Weigh(b2, t) && s3 == Weigh(b3, t)
    ensures s == t
  {
    assert s == (b0 + b1 + b2 + b3) * t;
  }

  /** The mass of a step is the sum of the masses of its column shares. */
  lemma StepSumOfColumns(d: seq<real>, r: ScoreRow, bg: Background)
    ensures Sum(Step(d, r, bg))
      == Sum(Column(d, r, bg, 0)) + Sum(Column(d, r, bg, 1)) + Sum(Column(d, r, bg, 2)) + Sum(Column(d, r, bg, 3))
  {
    var c0, c1, c2, c3 := Column(d, r, bg, 0), Column(d, r, bg, 1), Column(d, r, bg, 2), Column(d, r, bg, 3);
    StepIsColumns(d, r, bg);
    SumPlus(Plus(Plus(c0, c1), c2), c3);
    SumPlus(Plus(c0, c1), c2);
    SumPlus(c0, c1);
  }

  lemma StepMasses(d: seq<real>, r: ScoreRow, bg: Background) returns (s0: real, s1: real, s2: real, s3: real)
    ensures Sum(Step(d, r, bg)) == s0 + s1 + s2 + s3
    ensures s0 == Weigh(bg[0], Sum(d)) && s1 == Weigh(bg[1], Sum(d)) && s2 == Weigh(bg[2], Sum(d)) && s3 == Weigh(bg[3], Sum(d))
  {
    StepSumOfColumns(d, r, bg);
    s0, s1, s2, s3 := Sum(Column(d, r, bg, 0)), Sum(Column(d, r, bg, 1)), Sum(Column(d, r, bg, 2)), Sum(Column(d, r, bg, 3));
    ColumnSum(d, r, bg, 0);
    ColumnSum(d, r, bg, 1);
    ColumnSum(d, r, bg, 2);
    ColumnSum(d, r, bg, 3);
  }

  /** With a background that sums to 1 a convolution step keeps the total mass. */
  lemma StepSum(d: seq<real>, r: ScoreRow, bg: Background)
    requires BackgroundSum(bg) == 1.0
    ensures Sum(Step(d, r, bg)) == Sum(d)
  {
    var s0, s1, s2, s3 := StepMasses(d, r, bg);
    SharesOfOne(Sum(Step(d, r, bg)), s0, s1, s2, s3, bg[0], bg[1], bg[2], bg[3], Sum(d));
  }

  /** With a background that sums to 1 the distribution sums to 1. */
  lemma {:induction false} DistSumsToOne(m: seq<ScoreRow>, bg: Background)
    requires BackgroundSum(bg) == 1.0
    ensures Sum(Dist(m, bg)) == 1.0
  {
    if m == [] {
    } else {
      DistSumsToOne(m[..|m| - 1], bg);
      StepSum(Dist(m[..|m| - 1], bg), m[|m| - 1], bg);
    }
  }

  /**
   * The probability that the total score of `m` is `k`, by recursion on the
   * last row: the total is `k` when the earlier rows total `k - r[a]` and the
   * last row takes column `a`, which happens with probability `bg[a]`.
   */
  function Prob(m: seq<ScoreRow>, bg: Background, k: int): real
  {
    if m == [] then (if k == 0 then 1.0 else 0.0)
    else
      var p, r := m[..|m| - 1], m[|m| - 1];
      Weigh(bg[0], Prob(p, bg, k - r[0])) + Weigh(bg[1], Prob(p, bg, k - r[1]))
        + Weigh(bg[2], Prob(p, bg, k - r[2])) + Weigh(bg[3], Prob(p, bg, k - r[3]))
  }

  /**
   * Entry `k` of a convolution step, reading the old distribution from `base`
   * and the new one from `base + RowMin(r)`: each column `a` contributes the
   * old entry `k - r[a]` weighted by `bg[a]`.
   */
  lemma StepEntry(d: seq<real>, r: ScoreRow, bg: Background, base: int, k: int)
    ensures Pick(Step(d, r, bg), base + RowMin(r), k)
         == Weigh(bg[0], Pick(d, base, k - r[0])) + Weigh(bg[1], Pick(d, base, k - r[1]))
          + Weigh(bg[2], Pick(d, base, k - r[2])) + Weigh(bg[3], Pick(d, base, k - r[3]))
  {
    var i := k - base - RowMin(r);
    if 0 <= i < |Step(d, r, bg)| {
      StepIndex(d, r, bg, i);
    }
    assert Pick(Step(d, r, bg), base + RowMin(r), k) == StepAt(d, r, bg, i);
    assert Pick(d, Offset(r, 0), i) == Pick(d, base, k - r[0]);
    assert Pick(d, Offset(r, 1), i) == Pick(d, base, k - r[1]);
    assert Pick(d, Offset(r, 2), i) == Pick(d, base, k - r[2]);
    assert Pick(d, Offset(r, 3), i) == Pick(d, base, k - r[3]);
  }

  /** One convolution step turns the recurrence for the first rows into the recurrence with one more row. */
  lemma ProbStep(d: seq<real>, m: seq<ScoreRow>, bg: Background, base: int, k: int)
    requires m != []
    requires forall j :: Pick(d, base, j) == Prob(m[..|m| - 1], bg, j)
    ensures Pick(Step(d, m[|m| - 1], bg), base + RowMin(m[|m| - 1]), k) == Prob(m, bg, k)
  {
    StepEntry(d, m[|m| - 1], bg, base, k);
  }

  /** Entry `i` of the distribution is the probability of total `MinScore(m) + i`; every other total has probability 0. */
  lemma {:induction false} DistIsProb(m: seq<ScoreRow>, bg: Background)
    ensures forall k :: Pick(Dist(m, bg), MinScore(m), k) == Prob(m, bg, k)
  {
    if m != [] {
      var p, r := m[..|m| - 1], m[|m| - 1];
      DistIsProb(p, bg);
      assert MinScore(m) == MinScore(p) + RowMin(r);
      assert Dist(m, bg) == Step(Dist(p, bg), r, bg);
      forall k
        ensures Pick(Dist(m, bg), MinScore(m), k) == Prob(m, bg, k)
      {
        ProbStep(Dist(p, bg), m, bg, MinScore(p), k);
      }
    }
  }

  lemma WeightedSumNonNegative(b0: real, b1: real, b2: real, b3: real,
                               p0: real, p1: real, p2: real, p3: real)
    requires b0 >= 0.0 && b1 >= 0.0 && b2 >= 0.0 && b3 >= 0.0
    requires p0 >= 0.0 && p1 >= 0.0 && p2 >= 0.0 && p3 >= 0.0
    ensures b0 * p0 + b1 * p1 + b2 * p2 + b3 * p3 >= 0.0
  {
  }

  /** With a non-negative background a convolution step keeps every entry non-negative. */
  lemma StepNonNegative(d: seq<real>, r: ScoreRow, bg: Background, i: nat)
    requires NonNegative(bg) && forall j :: 0 <= j < |d| ==> d[j] >= 0.0
    requires i < |Step(d, r, bg)|
    ensures Step(d, r, bg)[i] >= 0.0
  {
    StepIndex(d, r, bg, i);
    WeightedSumNonNegative(bg[0], bg[1], bg[2], bg[3],
      Pick(d, Offset(r, 0), i), Pick(d, Offset(r, 1), i),
      Pick(d, Offset(r, 2), i), Pick(d, Offset(r, 3), i));
  }

  /** With a non-negative background no entry is negative. */
  lemma {:induction false} DistNonNegative(m: seq<ScoreRow>, bg: Background)
    requires NonNegative(bg)
    ensures forall i :: 0 <= i < |Dist(m, bg)| ==> Dist(m, bg)[i] >= 0.0
  {
    if m != [] {
      var d, r := Dist(m[..|m| - 1], bg), m[|m| - 1];
      DistNonNegative(m[..|m| - 1], bg);
      forall i | 0 <= i < |Dist(m, bg)|
        ensures Dist(m, bg)[i] >= 0.0
      {
        StepNonNegative(d, r, bg, i);
      }
    }
  }
}
