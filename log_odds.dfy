/**
 * The pseudocount-adjusted log-odds conversion
 * (`detail::log_adjusted_likelihood_ratio`): every probability `p` of a motif
 * position is pulled towards the background frequency by a pseudocount of 0.1
 * sites and replaced by the base-2 logarithm of its ratio to the background,
 * except that a row whose four probabilities are equal scores 0 throughout.
 * The conversion also reports the least and greatest converted cell.
 *
 * The logarithm is a parameter: the model states what is computed from it,
 * not its floating-point value.
 */
module LogOdds {
  import opened ScoreMatrix
  import opened Distribution

  /** The pseudocount: how many background-distributed sites are mixed in. */
  const PseudoSites: real := 0.1

  /** Every background frequency is positive, so that dividing by it is defined. */
  predicate Positive(bg: Background)
  {
    forall a :: 0 <= a < AlphabetSize ==> bg[a] > 0.0
  }

  /** The smoothed probability: the observed sites and the pseudo-sites, pooled. */
  function Adjusted(sites: nat, p: real, b: real): real
  {
    (sites as real * p + PseudoSites * b) / (sites as real + PseudoSites)
  }

  /** The log-odds score of probability `p` against background frequency `b`. */
  function CellScore(log2: real -> real, sites: nat, p: real, b: real): real
    requires b > 0.0
  {
    log2(Adjusted(sites, p, b) / b)
  }

  /** All four probabilities of the row are equal. */
  predicate UniformRow(r: RealRow)
  {
    r[0] == r[1] && r[1] == r[2] && r[2] == r[3]
  }

  /** One row converted: zeros for a uniform row, the cell scores otherwise. */
  function ConvertRow(log2: real -> real, sites: nat, r: RealRow, bg: Background): RealRow
    requires Positive(bg)
  {
    if UniformRow(r) then [0.0, 0.0, 0.0, 0.0]
    else [CellScore(log2, sites, r[0], bg[0]), CellScore(log2, sites, r[1], bg[1]),
          CellScore(log2, sites, r[2], bg[2]), CellScore(log2, sites, r[3], bg[3])]
  }

  function ConvertRows(log2: real -> real, sites: nat, m: seq<RealRow>, bg: Background): (q: seq<RealRow>)
    requires Positive(bg)
    ensures |q| == |m|
  {
    if m == [] then [] else [ConvertRow(log2, sites, m[0], bg)] + ConvertRows(log2, sites, m[1..], bg)
  }

  lemma {:induction false} ConvertRowsAt(log2: real -> real, sites: nat, m: seq<RealRow>, bg: Background, i: nat)
    requires Positive(bg) && i < |m|
    ensures ConvertRows(log2, sites, m, bg)[i] == ConvertRow(log2, sites, m[i], bg)
  {
    if i > 0 {
      ConvertRowsAt(log2, sites, m[1..], bg, i - 1);
    }
  }

  function Least(x: real, y: real): real { if x <= y then x else y }

  function Greatest(x: real, y: real): real { if x <= y then y else x }

  function RowLeast(r: RealRow): real
  {
    Least(Least(r[0], r[1]), Least(r[2], r[3]))
  }

  function RowGreatest(r: RealRow): real
  {
    Greatest(Greatest(r[0], r[1]), Greatest(r[2], r[3]))
  }

  /** The least cell of a non-empty matrix. */
  function CellsLeast(m: seq<RealRow>): real
    requires m != []
  {
    if |m| == 1 then RowLeast(m[0]) else Least(RowLeast(m[0]), CellsLeast(m[1..]))
  }

  /** The greatest cell of a non-empty matrix. */
  function CellsGreatest(m: seq<RealRow>): real
    requires m != []
  {
    if |m| == 1 then RowGreatest(m[0]) else Greatest(RowGreatest(m[0]), CellsGreatest(m[1..]))
  }

  /** Some cell equals `v`. */
  predicate Occurs(m: seq<RealRow>, v: real)
  {
    exists i, a :: 0 <= i < |m| && 0 <= a < AlphabetSize && m[i][a] == v
  }

  /** The least and greatest cells bound every cell, and both occur in the matrix. */
  lemma {:induction false} CellsExtremes(m: seq<RealRow>)
    requires m != []
    ensures WithinBounds(m, CellsLeast(m), CellsGreatest(m))
    ensures Occurs(m, CellsLeast(m)) && Occurs(m, CellsGreatest(m))
  {
    var r := m[0];
    assert forall a :: 0 <= a < AlphabetSize ==> RowLeast(r) <= r[a] <= RowGreatest(r);
    assert exists a :: 0 <= a < AlphabetSize && r[a] == RowLeast(r);
    assert exists a :: 0 <= a < AlphabetSize && r[a] == RowGreatest(r);
    if |m| > 1 {
      var t := m[1..];
      CellsExtremes(t);
      forall i, a | 0 <= i < |m| && 0 <= a < AlphabetSize
        ensures CellsLeast(m) <= m[i][a] <= CellsGreatest(m)
      {
        if i > 0 {
          assert m[i] == t[i - 1];
        }
      }
      if RowLeast(r) > CellsLeast(t) {
        var i, a :| 0 <= i < |t| && 0 <= a < AlphabetSize && t[i][a] == CellsLeast(t);
        assert m[i + 1][a] == CellsLeast(m);
      }
      if RowGreatest(r) <= CellsGreatest(t) {
        var i, a :| 0 <= i < |t| && 0 <= a < AlphabetSize && t[i][a] == CellsGreatest(t);
        assert m[i + 1][a] == CellsGreatest(m);
      }
    }
  }

  /** A converted matrix together with its least and greatest cell. */
  datatype Conversion = Conversion(pwm: PWM, min: real, max: real)

  /**
   * `detail::log_adjusted_likelihood_ratio`: the matrix with every row
   * converted, its name and number of sites unchanged, and the extreme
   * converted cells.
   */
  function LogAdjustedLikelihoodRatio(log2: real -> real, pwm: PWM, bg: Background): (c: Conversion)
    requires Positive(bg) && pwm.matrix != []
    ensures c.pwm.name == pwm.name && c.pwm.numberOfSites == pwm.numberOfSites
    ensures |c.pwm.matrix| == |pwm.matrix|
  {
    var m := ConvertRows(log2, pwm.numberOfSites, pwm.matrix, bg);
    Conversion(PWM(pwm.name, pwm.numberOfSites, m), CellsLeast(m), CellsGreatest(m))
  }

  /**
   * A uniform row scores 0 for every base; any other row scores each base by
   * the logarithm of its smoothed probability over the background frequency.
   */
  lemma ConvertedCell(log2: real -> real, pwm: PWM, bg: Background, i: nat, a: nat)
    requires Positive(bg) && pwm.matrix != []
    requires i < |pwm.matrix| && a < AlphabetSize
    ensures var q := LogAdjustedLikelihoodRatio(log2, pwm, bg).pwm.matrix[i][a];
      if UniformRow(pwm.matrix[i]) then q == 0.0
      else q == log2(Adjusted(pwm.numberOfSites, pwm.matrix[i][a], bg[a]) / bg[a])
  {
    ConvertRowsAt(log2, pwm.numberOfSites, pwm.matrix, bg, i);
  }

  /**
   * The reported pair bounds every converted cell and both ends are reached,
   * so it is a valid input to the scaling.
   */
  lemma ConversionExtremes(log2: real -> real, pwm: PWM, bg: Background)
    requires Positive(bg) && pwm.matrix != []
    ensures var c := LogAdjustedLikelihoodRatio(log2, pwm, bg);
      c.min <= c.max && WithinBounds(c.pwm.matrix, c.min, c.max)
      && Occurs(c.pwm.matrix, c.min) && Occurs(c.pwm.matrix, c.max)
  {
    var c := LogAdjustedLikelihoodRatio(log2, pwm, bg);
    CellsExtremes(c.pwm.matrix);
  }

  /** With a positive background, a smoothed probability is positive: no cell's logarithm is of zero. */
  lemma AdjustedPositive(sites: nat, p: real, b: real)
    requires p >= 0.0 && b > 0.0
    ensures Adjusted(sites, p, b) > 0.0
  {
    var num := sites as real * p + PseudoSites * b;
    assert sites as real * p >= 0.0;
    assert num > 0.0;
  }

  /** Smoothing keeps a row a probability distribution: a row summing to one still sums to one. */
  lemma AdjustedSumsToOne(sites: nat, r: RealRow, bg: Background)
    requires r[0] + r[1] + r[2] + r[3] == 1.0 && BackgroundSum(bg) == 1.0
    ensures Adjusted(sites, r[0], bg[0]) + Adjusted(sites, r[1], bg[1])
          + Adjusted(sites, r[2], bg[2]) + Adjusted(sites, r[3], bg[3]) == 1.0
  {
    var n := sites as real;
    var d := n + PseudoSites;
    var num := n * r[0] + PseudoSites * bg[0] + n * r[1] + PseudoSites * bg[1]
             + n * r[2] + PseudoSites * bg[2] + n * r[3] + PseudoSites * bg[3];
    assert n * r[0] + n * r[1] + n * r[2] + n * r[3] == n * (r[0] + r[1] + r[2] + r[3]);
    assert num == d;
    SumOfQuotients(n * r[0] + PseudoSites * bg[0], n * r[1] + PseudoSites * bg[1],
                   n * r[2] + PseudoSites * bg[2], n * r[3] + PseudoSites * bg[3], d);
  }

  lemma SumOfQuotients(x0: real, x1: real, x2: real, x3: real, d: real)
    requires d > 0.0 && x0 + x1 + x2 + x3 == d
    ensures x0 / d + x1 / d + x2 / d + x3 / d == 1.0
  {
    assert x0 / d + x1 / d + x2 / d + x3 / d == (x0 + x1 + x2 + x3) / d;
  }
}
