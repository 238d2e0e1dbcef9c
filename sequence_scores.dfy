/**
 * The link between scoring a DNA string and the brute-force distribution: a
 * window of nucleotide letters scores exactly the total of the columns its
 * letters name, so the distribution's entry for score `k` is the background
 * probability that a random window of the matrix's width scores `k`.
 */
module SequenceScores {
  import opened ScoreMatrix
  import opened Scorer
  import opened Enumeration

  /** Every character is a nucleotide letter (of either case). */
  predicate AllLetters(s: string)
  {
    forall i :: 0 <= i < |s| ==> SymbolIndex(s[i]).Some?
  }

  /** The columns the letters of `s` name. */
  function Columns(s: string): (x: seq<Symbol>)
    requires AllLetters(s)
    ensures |x| == |s| && forall i :: 0 <= i < |s| ==> x[i] == SymbolIndex(s[i]).value
  {
    seq(|s|, i requires 0 <= i < |s| => SymbolIndex(s[i]).value)
  }

  /** The first `n` letters of `s` score the total of their columns against the first `n` rows. */
  lemma {:induction false} PrefixScoreIsTotal(m: seq<ScoreRow>, s: string, n: nat)
    requires n <= |s| && n <= |m| && AllLetters(s)
    ensures Score(m, s, 0, n) == Total(m[..n], Columns(s[..n]))
  {
    if n > 0 {
      PrefixScoreIsTotal(m, s, n - 1);
      assert m[..n][..n - 1] == m[..n - 1];
      assert Columns(s[..n])[..n - 1] == Columns(s[..n - 1]);
    }
  }

  /** A string of letters as long as the matrix scores the total of the columns it names. */
  lemma ScoreIsTotal(m: seq<ScoreRow>, s: string)
    requires |s| == |m| && AllLetters(s)
    ensures Score(m, s, 0, |s|) == Total(m, Columns(s))
  {
    PrefixScoreIsTotal(m, s, |s|);
    assert m[..|m|] == m && s[..|s|] == s;
  }
}
