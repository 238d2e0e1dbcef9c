/**
 * The nucleotide alphabet and the integer score matrices built on it: a matrix
 * is a sequence of rows, one per motif position, each row holding one cell per
 * nucleotide in the order A, C, G, T.
 */
module ScoreMatrix {
  import opened Wrappers

  const AlphabetSize: nat := 4

  /** The alphabet in column order. */
  const Letters: string := "ACGT"

  /** A row of a scaled (integer) matrix: the score of each nucleotide at one position. */
  type ScoreRow = r: seq<nat> | |r| == AlphabetSize witness [0, 0, 0, 0]

  /** A row of a probability or log-odds matrix. */
  type RealRow = r: seq<real> | |r| == AlphabetSize witness [0.0, 0.0, 0.0, 0.0]

  /**
   * A position-probability matrix read from a motif file: its name, the
   * number of sites it was built from, and one row per motif position. The
   * log-odds conversion later rewrites the rows in place.
   */
  datatype PWM = PWM(name: string, numberOfSites: nat, matrix: seq<RealRow>)

  /**
   * An integer score matrix with the numbers it was scaled by: every cell is
   * `(value - minBeforeScaling) * scale`, rounded, and `range` is the greatest
   * cell an extreme value can reach.
   */
  datatype ScaledPWM = ScaledPWM(numberOfSites: nat, matrix: seq<ScoreRow>,
                                 minBeforeScaling: real, scale: nat, range: nat)

  /** Every cell of a real matrix lies between `lo` and `hi`. */
  predicate WithinBounds(m: seq<RealRow>, lo: real, hi: real)
  {
    forall i, a :: 0 <= i < |m| && 0 <= a < AlphabetSize ==> lo <= m[i][a] <= hi
  }

  /** The upper-case form of an ASCII lower-case letter; every other character is unchanged. */
  function Upper(c: char): char
  {
    if 'a' <= c <= 'z' then (c as int - 'a' as int + 'A' as int) as char else c
  }

  /**
   * The column of a nucleotide letter, case-insensitively: A/a is 0, C/c is 1,
   * G/g is 2, T/t is 3; any other character has no column.
   */
  function SymbolIndex(c: char): (r: Option<nat>)
    ensures r.Some? <==> Upper(c) in Letters
    ensures r.Some? ==> r.value < AlphabetSize && Letters[r.value] == Upper(c)
  {
    match Upper(c)
    case 'A' => Some(0)
    case 'C' => Some(1)
    case 'G' => Some(2)
    case 'T' => Some(3)
    case _ => None
  }

  /** Each letter of the alphabet names its own column. */
  lemma SymbolIndexOfLetter(a: nat)
    requires a < AlphabetSize
    ensures SymbolIndex(Letters[a]) == Some(a)
  {
  }

  function Min(x: int, y: int): int { if x <= y then x else y }

  function Max(x: int, y: int): int { if x <= y then y else x }

  /** The smallest cell of a row: no cell is below it and some cell equals it. */
  function RowMin(r: ScoreRow): (lo: nat)
    ensures forall a :: 0 <= a < AlphabetSize ==> lo <= r[a]
    ensures exists a :: 0 <= a < AlphabetSize && r[a] == lo
  {
    Min(Min(r[0], r[1]), Min(r[2], r[3]))
  }

  /** The largest cell of a row: no cell is above it and some cell equals it. */
  function RowMax(r: ScoreRow): (hi: nat)
    ensures forall a :: 0 <= a < AlphabetSize ==> r[a] <= hi
    ensures exists a :: 0 <= a < AlphabetSize && r[a] == hi
  {
    Max(Max(r[0], r[1]), Max(r[2], r[3]))
  }

  /** The least total score of a matrix: the sum of its row minima. */
  function MinScore(m: seq<ScoreRow>): nat
  {
    if m == [] then 0 else MinScore(m[..|m| - 1]) + RowMin(m[|m| - 1])
  }

  /** The greatest total score of a matrix: the sum of its row maxima. */
  function MaxScore(m: seq<ScoreRow>): nat
  {
    if m == [] then 0 else MaxScore(m[..|m| - 1]) + RowMax(m[|m| - 1])
  }

  /** The least total never exceeds the greatest. */
  lemma {:induction false} MinBelowMax(m: seq<ScoreRow>)
    ensures MinScore(m) <= MaxScore(m)
  {
    if m != [] {
      MinBelowMax(m[..|m| - 1]);
    }
  }
}
