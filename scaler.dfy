/**
 * Scaling of a log-odds matrix to non-negative integers (`detail::scale`):
 * given the matrix, the least and greatest of its cells and a requested range,
 * the scale is the largest whole number by which the span of the cells still
 * fits in the range, and each cell becomes its distance above the least cell
 * times that scale, rounded half up.
 */
module Scaler {
  import opened ScoreMatrix

  /** Rounding half up: the integer nearest to `x`, ties going up. */
  function Round(x: real): (n: int)
    ensures n as real - 0.5 <= x < n as real + 0.5
  {
    (x + 0.5).Floor
  }

  /** A whole number is its own rounding. */
  lemma RoundWhole(n: int)
    ensures Round(n as real) == n
  {
  }

  /** Rounding never reverses an order. */
  lemma RoundMonotone(x: real, y: real)
    requires x <= y
    ensures Round(x) <= Round(y)
  {
  }

  /**
   * The scale for cells spanning `[lo, hi]` and a requested range `target`:
   * the largest whole `s` with `s * (hi - lo) <= target`, and 0 when the span
   * is empty.
   */
  function ScaleFactor(lo: real, hi: real, target: nat): (s: nat)
    requires lo <= hi
    ensures lo == hi ==> s == 0
    ensures lo < hi ==> s as real * (hi - lo) <= target as real < (s + 1) as real * (hi - lo)
  {
    if lo == hi then 0
    else
      var q := target as real / (hi - lo);
      FloorBounds(q);
      QuotientBounds(target as real, hi - lo, q.Floor);
      q.Floor
  }

  lemma FloorBounds(q: real)
    requires q >= 0.0
    ensures q.Floor >= 0 && q.Floor as real <= q < q.Floor as real + 1.0
  {
  }

  lemma QuotientBounds(t: real, w: real, f: int)
    requires w > 0.0 && f as real <= t / w < f as real + 1.0
    ensures f as real * w <= t < (f + 1) as real * w
  {
    var q := t / w;
    assert q * w == t;
    MultiplyBelow(f as real, q, w);
    var g := (f + 1) as real;
    MultiplyAbove(q, g, w);
    assert t < g * w;
  }

  lemma MultiplyBelow(x: real, y: real, w: real)
    requires x <= y && w > 0.0
    ensures x * w <= y * w
  {
  }

  lemma MultiplyAbove(x: real, y: real, w: real)
    requires x < y && w > 0.0
    ensures x * w < y * w
  {
  }

  /** A requested range at least as wide as a non-empty span gives a scale of at least 1. */
  lemma ScaleAtLeastOne(lo: real, hi: real, target: nat)
    requires lo < hi && hi - lo <= target as real
    ensures ScaleFactor(lo, hi, target) >= 1
  {
  }

  lemma ProductNonNegative(x: real, s: nat)
    requires x >= 0.0
    ensures x * s as real >= 0.0
  {
  }

  /** The distance of `v` above `lo`, times `s`. */
  function Scaled(v: real, lo: real, s: nat): real
  {
    (v - lo) * s as real
  }

  /** One cell: its distance above `lo` times the scale, rounded half up. */
  function ScaleCell(v: real, lo: real, s: nat): (c: nat)
    requires lo <= v
    ensures c as real - 0.5 <= Scaled(v, lo, s) < c as real + 0.5
  {
    ProductNonNegative(v - lo, s);
    Round(Scaled(v, lo, s))
  }

  function ScaleRow(r: RealRow, lo: real, s: nat): (q: ScoreRow)
    requires forall a :: 0 <= a < AlphabetSize ==> lo <= r[a]
  {
    [ScaleCell(r[0], lo, s), ScaleCell(r[1], lo, s), ScaleCell(r[2], lo, s), ScaleCell(r[3], lo, s)]
  }

  function ScaleRows(m: seq<RealRow>, lo: real, s: nat): (q: seq<ScoreRow>)
    requires forall i, a :: 0 <= i < |m| && 0 <= a < AlphabetSize ==> lo <= m[i][a]
    ensures |q| == |m|
  {
    if m == [] then [] else [ScaleRow(m[0], lo, s)] + ScaleRows(m[1..], lo, s)
  }

  lemma {:induction false} ScaleRowsAt(m: seq<RealRow>, lo: real, s: nat, i: nat, a: nat)
    requires forall i, a :: 0 <= i < |m| && 0 <= a < AlphabetSize ==> lo <= m[i][a]
    requires i < |m| && a < AlphabetSize
    ensures ScaleRows(m, lo, s)[i][a] == ScaleCell(m[i][a], lo, s)
  {
    if i > 0 {
      ScaleRowsAt(m[1..], lo, s, i - 1, a);
    }
  }

  /** The range a span reaches under a scale: the span times the scale, rounded. */
  function RangeOf(span: real, s: nat): (n: nat)
    requires span >= 0.0
    ensures n as real - 0.5 <= span * s as real < n as real + 0.5
  {
    ProductNonNegative(span, s);
    Round(span * s as real)
  }

  /**
   * `detail::scale`: the number of sites is carried over, `lo` is recorded as
   * the minimum before scaling, the scale is `ScaleFactor`, every cell is
   * scaled by `ScaleCell`, and the achieved range is the span times the scale,
   * rounded.
   */
  function Scale(pwm: PWM, lo: real, hi: real, target: nat): (sp: ScaledPWM)
    requires lo <= hi && WithinBounds(pwm.matrix, lo, hi)
    ensures sp.numberOfSites == pwm.numberOfSites && sp.minBeforeScaling == lo
    ensures sp.scale == ScaleFactor(lo, hi, target)
    ensures |sp.matrix| == |pwm.matrix|
    ensures sp.range as real - 0.5 <= (hi - lo) * sp.scale as real < sp.range as real + 0.5
  {
    var s := ScaleFactor(lo, hi, target);
    ScaledPWM(pwm.numberOfSites, ScaleRows(pwm.matrix, lo, s), lo, s, RangeOf(hi - lo, s))
  }

  /** Where the span times the scale is a whole number, the range is exactly that number. */
  lemma RangeExact(pwm: PWM, lo: real, hi: real, target: nat, n: int)
    requires lo <= hi && WithinBounds(pwm.matrix, lo, hi)
    requires (hi - lo) * ScaleFactor(lo, hi, target) as real == n as real
    ensures Scale(pwm, lo, hi, target).range == n
  {
    RoundWhole(n);
  }

  /** Each cell of the scaled matrix is the rounded scaled distance of the original cell above `lo`. */
  lemma ScaledCell(pwm: PWM, lo: real, hi: real, target: nat, i: nat, a: nat)
    requires lo <= hi && WithinBounds(pwm.matrix, lo, hi)
    requires i < |pwm.matrix| && a < AlphabetSize
    ensures var sp := Scale(pwm, lo, hi, target);
      sp.matrix[i][a] as real - 0.5 <= Scaled(pwm.matrix[i][a], lo, sp.scale) < sp.matrix[i][a] as real + 0.5
  {
    ScaleRowsAt(pwm.matrix, lo, ScaleFactor(lo, hi, target), i, a);
  }

  /** Where the scaled distance is a whole number, the cell is exactly that number. */
  lemma ScaledCellExact(pwm: PWM, lo: real, hi: real, target: nat, i: nat, a: nat, n: int)
    requires lo <= hi && WithinBounds(pwm.matrix, lo, hi)
    requires i < |pwm.matrix| && a < AlphabetSize
    requires Scaled(pwm.matrix[i][a], lo, ScaleFactor(lo, hi, target)) == n as real
    ensures Scale(pwm, lo, hi, target).matrix[i][a] == n
  {
    ScaleRowsAt(pwm.matrix, lo, ScaleFactor(lo, hi, target), i, a);
    RoundWhole(n);
  }

  /** The achieved range never exceeds the requested one. */
  lemma RangeWithinTarget(pwm: PWM, lo: real, hi: real, target: nat)
    requires lo <= hi && WithinBounds(pwm.matrix, lo, hi)
    ensures Scale(pwm, lo, hi, target).range <= target
  {
    var s := ScaleFactor(lo, hi, target);
    RoundMonotone(Scaled(hi, lo, s), target as real);
    RoundWhole(target);
  }

  /** No scaled cell exceeds the achieved range: cells lie in `[0, range]`. */
  lemma CellsWithinRange(pwm: PWM, lo: real, hi: real, target: nat, i: nat, a: nat)
    requires lo <= hi && WithinBounds(pwm.matrix, lo, hi)
    requires i < |pwm.matrix| && a < AlphabetSize
    ensures Scale(pwm, lo, hi, target).matrix[i][a] <= Scale(pwm, lo, hi, target).range
  {
    var s := ScaleFactor(lo, hi, target);
    var v := pwm.matrix[i][a];
    ScaleRowsAt(pwm.matrix, lo, s, i, a);
    assert Scale(pwm, lo, hi, target).matrix[i][a] == Round(Scaled(v, lo, s));
    ProductMonotone(v, hi, lo, s);
    RoundMonotone(Scaled(v, lo, s), Scaled(hi, lo, s));
  }

  lemma ProductMonotone(v: real, w: real, lo: real, s: nat)
    requires v <= w
    ensures Scaled(v, lo, s) <= Scaled(w, lo, s)
  {
  }

  /** Scaling never reverses the order of two cells: a cell no greater than another scales to an integer no greater. */
  lemma ScaledMonotone(pwm: PWM, lo: real, hi: real, target: nat, i: nat, a: nat, j: nat, b: nat)
    requires lo <= hi && WithinBounds(pwm.matrix, lo, hi)
    requires i < |pwm.matrix| && a < AlphabetSize && j < |pwm.matrix| && b < AlphabetSize
    requires pwm.matrix[i][a] <= pwm.matrix[j][b]
    ensures Scale(pwm, lo, hi, target).matrix[i][a] <= Scale(pwm, lo, hi, target).matrix[j][b]
  {
    var s := ScaleFactor(lo, hi, target);
    var v, w := pwm.matrix[i][a], pwm.matrix[j][b];
    ScaleRowsAt(pwm.matrix, lo, s, i, a);
    ScaleRowsAt(pwm.matrix, lo, s, j, b);
    ProductMonotone(v, w, lo, s);
    RoundMonotone(Scaled(v, lo, s), Scaled(w, lo, s));
  }

  /** A cell equal to `lo` scales to 0. */
  lemma LeastCell(pwm: PWM, lo: real, hi: real, target: nat, i: nat, a: nat)
    requires lo <= hi && WithinBounds(pwm.matrix, lo, hi)
    requires i < |pwm.matrix| && a < AlphabetSize && pwm.matrix[i][a] == lo
    ensures Scale(pwm, lo, hi, target).matrix[i][a] == 0
  {
    var s := ScaleFactor(lo, hi, target);
    ScaleRowsAt(pwm.matrix, lo, s, i, a);
    assert Scaled(lo, lo, s) == 0.0;
    RoundWhole(0);
  }

  /** A cell equal to `hi` scales to the achieved range. */
  lemma GreatestCell(pwm: PWM, lo: real, hi: real, target: nat, i: nat, a: nat)
    requires lo <= hi && WithinBounds(pwm.matrix, lo, hi)
    requires i < |pwm.matrix| && a < AlphabetSize && pwm.matrix[i][a] == hi
    ensures Scale(pwm, lo, hi, target).matrix[i][a] == Scale(pwm, lo, hi, target).range
  {
    ScaleRowsAt(pwm.matrix, lo, ScaleFactor(lo, hi, target), i, a);
  }
}
