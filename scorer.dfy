/**
 * Scoring a window of a DNA string against a scaled matrix (`detail::score`):
 * row `i` of the matrix is read at the column of character `start + i`, and a
 * character that is not a nucleotide letter adds nothing.
 */
module Scorer {
  import opened Wrappers
  import opened ScoreMatrix

  /**
   * What one character adds when read against one row: the A, C, G or T cell
   * for that letter in either case, and 0 for any other character.
   */
  function Cell(row: ScoreRow, c: char): (v: nat)
    ensures c == 'A' || c == 'a' ==> v == row[0]
    ensures c == 'C' || c == 'c' ==> v == row[1]
    ensures c == 'G' || c == 'g' ==> v == row[2]
    ensures c == 'T' || c == 't' ==> v == row[3]
    ensures c !in {'A', 'a', 'C', 'c', 'G', 'g', 'T', 't'} ==> v == 0
  {
    match SymbolIndex(c)
    case None => 0
    case Some(a) => row[a]
  }

  /**
   * The score of the half-open window `[start, end)` of `s`: the sum over
   * `i < end - start` of row `i` read at `s[start + i]`. The window may be
   * shorter than the matrix; then only its first `end - start` rows are used.
   */
  function Score(m: seq<ScoreRow>, s: string, start: nat, end: nat): nat
    requires start <= end <= |s| && end - start <= |m|
    decreases end - start
  {
    if start == end then 0
    else Score(m, s, start, end - 1) + Cell(m[end - 1 - start], s[end - 1])
  }

  /** An empty window scores 0, wherever it is (also at the end of `s`). */
  lemma ScoreEmpty(m: seq<ScoreRow>, s: string, k: nat)
    requires k <= |s|
    ensures Score(m, s, k, k) == 0
  {
  }

  /**
   * Splitting a window at `mid`: the right part is scored from row `mid - start`
   * on, i.e. against the matrix with its first `mid - start` rows dropped.
   */
  lemma {:induction false} ScoreSplit(m: seq<ScoreRow>, s: string, start: nat, mid: nat, end: nat)
    requires start <= mid <= end <= |s| && end - start <= |m|
    ensures Score(m, s, start, end) == Score(m, s, start, mid) + Score(m[mid - start..], s, mid, end)
    decreases end - mid
  {
    if mid < end {
      ScoreSplit(m, s, start, mid, end - 1);
      assert m[mid - start..][end - 1 - mid] == m[end - 1 - start];
    }
  }

  /** Only the characters inside the window matter: the window can be cut out and scored from 0. */
  lemma {:induction false} ScoreWindow(m: seq<ScoreRow>, s: string, start: nat, end: nat)
    requires start <= end <= |s| && end - start <= |m|
    ensures Score(m, s, start, end) == Score(m, s[start..end], 0, end - start)
    decreases end - start
  {
    if start < end {
      ScoreWindow(m, s, start, end - 1);
      ScoreSame(m, s[start..end - 1], s[start..end], 0, end - 1 - start);
    }
  }

  /**
   * Two strings whose characters name the same columns throughout the window
   * (for instance, equal up to upper/lower case) score the same there.
   */
  lemma {:induction false} ScoreSame(m: seq<ScoreRow>, s: string, t: string, start: nat, end: nat)
    requires start <= end <= |s| && end <= |t| && end - start <= |m|
    requires forall i :: start <= i < end ==> SymbolIndex(s[i]) == SymbolIndex(t[i])
    ensures Score(m, s, start, end) == Score(m, t, start, end)
    decreases end - start
  {
    if start < end {
      ScoreSame(m, s, t, start, end - 1);
    }
  }

  /** The upper-case form of a string. */
  function UpperString(s: string): (u: string)
    ensures |u| == |s| && forall i :: 0 <= i < |s| ==> u[i] == Upper(s[i])
  {
    seq(|s|, i requires 0 <= i < |s| => Upper(s[i]))
  }

  /** Scoring is case-insensitive. */
  lemma ScoreIgnoresCase(m: seq<ScoreRow>, s: string, start: nat, end: nat)
    requires start <= end <= |s| && end - start <= |m|
    ensures Score(m, UpperString(s), start, end) == Score(m, s, start, end)
  {
    var u := UpperString(s);
    forall i | start <= i < end
      ensures SymbolIndex(u[i]) == SymbolIndex(s[i])
    {
      assert Upper(Upper(s[i])) == Upper(s[i]);
    }
    ScoreSame(m, u, s, start, end);
  }

  /**
   * A window's score is at most the greatest total of the rows it uses, and at
   * least their least total when every character in it is a nucleotide letter
   * (a character that is not one adds 0, which may be below its row's minimum).
   */
  lemma {:induction false} ScoreBounds(m: seq<ScoreRow>, s: string, start: nat, end: nat)
    requires start <= end <= |s| && end - start <= |m|
    ensures Score(m, s, start, end) <= MaxScore(m[..end - start])
    ensures (forall i :: start <= i < end ==> SymbolIndex(s[i]).Some?) ==>
              MinScore(m[..end - start]) <= Score(m, s, start, end)
    decreases end - start
  {
    if start < end {
      ScoreBounds(m, s, start, end - 1);
      var n := end - start;
      assert m[..n][..n - 1] == m[..n - 1];
    }
  }
}
