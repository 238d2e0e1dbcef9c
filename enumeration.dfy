/**
 * The brute-force meaning of the score distribution: list every one of the
 * `4^width` nucleotide choices (one column per row), and add up the
 * background weight of the choices whose total is `k`. The row-by-row
 * convolution of `Distribution.Dist` is proved to compute exactly this mass
 * for every score.
 */
module Enumeration {
  import opened ScoreMatrix
  import opened Distribution

  /** A column of the alphabet. */
  type Symbol = a: nat | a < AlphabetSize

  /** The total score of choosing column `x[i]` at row `i`. */
  function Total(m: seq<ScoreRow>, x: seq<Symbol>): nat
    requires |x| == |m|
  {
    if m == [] then 0 else Total(m[..|m| - 1], x[..|x| - 1]) + m[|m| - 1][x[|x| - 1]]
  }

  /** The background probability of the sequence of columns `x`. */
  function Weight(bg: Background, x: seq<Symbol>): real
  {
    if x == [] then 1.0 else Weigh(bg[x[0]], Weight(bg, x[1..]))
  }

  /** Every choice of `L` with column `a` appended, in order. */
  function Append(L: seq<seq<Symbol>>, a: Symbol): (R: seq<seq<Symbol>>)
    ensures |R| == |L|
  {
    seq(|L|, i requires 0 <= i < |L| => L[i] + [a])
  }

  /** The four blocks built from the shorter choices `P`: `P` extended by A, then by C, by G and by T. */
  function Blocks(P: seq<seq<Symbol>>): (B: seq<seq<Symbol>>)
    ensures |B| == 4 * |P|
  {
    Append(P, 0) + Append(P, 1) + Append(P, 2) + Append(P, 3)
  }

  /** All choices of `n` columns, built one column at a time. */
  function Choices(n: nat): (C: seq<seq<Symbol>>)
  {
    if n == 0 then [[]] else Blocks(Choices(n - 1))
  }

  function Pow4(n: nat): nat
  {
    if n == 0 then 1 else 4 * Pow4(n - 1)
  }

  /** There are `4^n` choices of `n` columns. */
  lemma {:induction false} ChoicesCount(n: nat)
    ensures |Choices(n)| == Pow4(n)
  {
    if n > 0 {
      ChoicesCount(n - 1);
    }
  }

  lemma {:induction false} AppendAt(L: seq<seq<Symbol>>, a: Symbol, i: nat)
    requires i < |L|
    ensures Append(L, a)[i] == L[i] + [a]
  {
    if i > 0 {
      AppendAt(L[1..], a, i - 1);
    }
  }

  /** `a * q`, written out for the four columns. */
  function Times(a: Symbol, q: nat): nat
  {
    if a == 0 then 0 else if a == 1 then q else if a == 2 then q + q else q + q + q
  }

  /** Block `a` of `Choices(n)` holds the shorter choices extended by column `a`. */
  lemma BlockAt(P: seq<seq<Symbol>>, a: Symbol, j: nat)
    requires j < |P|
    ensures Times(a, |P|) + j < 4 * |P|
    ensures Blocks(P)[Times(a, |P|) + j] == P[j] + [a]
  {
    AppendAt(P, a, j);
    var A0, A1, A2, A3 := Append(P, 0), Append(P, 1), Append(P, 2), Append(P, 3);
    var q := |P|;
    if a == 0 {
      assert (A0 + A1 + A2 + A3)[j] == A0[j];
    } else if a == 1 {
      assert (A0 + A1 + A2 + A3)[q + j] == A1[j];
    } else if a == 2 {
      assert (A0 + A1 + A2 + A3)[q + q + j] == A2[j];
    } else {
      assert (A0 + A1 + A2 + A3)[q + q + q + j] == A3[j];
    }
  }

  /** Position `i` of `Blocks(P)` lies in block `a` at offset `j`: it is `P[j]` extended by `a`. */
  lemma BlockOf(P: seq<seq<Symbol>>, i: nat) returns (a: Symbol, j: nat)
    requires i < |Blocks(P)|
    ensures j < |P| && i == Times(a, |P|) + j
    ensures Blocks(P)[i] == P[j] + [a]
  {
    var q := |P|;
    a := if i < q then 0 else if i < q + q then 1 else if i < q + q + q then 2 else 3;
    j := i - Times(a, q);
    BlockAt(P, a, j);
  }

  /** Every member of `Choices(n)` has `n` columns. */
  lemma {:induction false} ChoicesLength(n: nat, i: nat)
    requires i < |Choices(n)|
    ensures |Choices(n)[i]| == n
  {
    if n > 0 {
      var a, j := BlockOf(Choices(n - 1), i);
      ChoicesLength(n - 1, j);
    }
  }

  /** Every sequence of `n` columns is listed in `Choices(n)`. */
  lemma {:induction false} ChoicesCover(x: seq<Symbol>)
    ensures x in Choices(|x|)
  {
    if x != [] {
      var n, p, a := |x|, x[..|x| - 1], x[|x| - 1];
      ChoicesCover(p);
      var P := Choices(n - 1);
      var j :| 0 <= j < |P| && P[j] == p;
      BlockAt(P, a, j);
      SplitLast(x);
    }
  }

  lemma SplitLast(x: seq<Symbol>)
    requires x != []
    ensures x[..|x| - 1] + [x[|x| - 1]] == x
  {
  }

  /** Two extended choices are equal only when their prefixes and their last columns are. */
  lemma ExtendInjective(p: seq<Symbol>, a: Symbol, q: seq<Symbol>, b: Symbol)
    ensures p + [a] == q + [b] ==> p == q && a == b
  {
    if p + [a] == q + [b] {
      assert |p| == |q|;
      assert (p + [a])[|p|] == a && (q + [b])[|q|] == b;
      assert (p + [a])[..|p|] == p && (q + [b])[..|q|] == q;
    }
  }

  /** No sequence occurs twice in `L`. */
  predicate Distinct(L: seq<seq<Symbol>>)
  {
    forall j, l :: 0 <= j < |L| && 0 <= l < |L| && j != l ==> L[j] != L[l]
  }

  /** Extending a list without repetitions by each column in turn gives a list without repetitions. */
  lemma BlocksDistinct(P: seq<seq<Symbol>>)
    requires Distinct(P)
    ensures Distinct(Blocks(P))
  {
    forall i, k | 0 <= i < |Blocks(P)| && 0 <= k < |Blocks(P)| && i != k
      ensures Blocks(P)[i] != Blocks(P)[k]
    {
      var a, j := BlockOf(P, i);
      var b, l := BlockOf(P, k);
      ExtendInjective(P[j], a, P[l], b);
    }
  }

  /** No choice is listed twice in `Choices(n)`. */
  lemma {:induction false} ChoicesDistinct(n: nat)
    ensures Distinct(Choices(n))
  {
    if n > 0 {
      ChoicesDistinct(n - 1);
      BlocksDistinct(Choices(n - 1));
    }
  }

  /** `Choices(n)` holds exactly the sequences of `n` columns. */
  lemma ChoicesComplete(x: seq<Symbol>, n: nat)
    ensures x in Choices(n) <==> |x| == n
  {
    if x in Choices(n) {
      var i :| 0 <= i < |Choices(n)| && Choices(n)[i] == x;
      ChoicesLength(n, i);
    }
    if |x| == n {
      ChoicesCover(x);
    }
  }

  /** The weight of the choices in `L` of `|m|` columns whose total is `k`. */
  function MassIn(m: seq<ScoreRow>, bg: Background, L: seq<seq<Symbol>>, k: int): real
  {
    if L == [] then 0.0
    else (if |L[0]| == |m| && Total(m, L[0]) == k then Weight(bg, L[0]) else 0.0) + MassIn(m, bg, L[1..], k)
  }

  /** The probability of total score `k`: the weight of every choice scoring `k`. */
  function Mass(m: seq<ScoreRow>, bg: Background, k: int): real
  {
    MassIn(m, bg, Choices(|m|), k)
  }

  lemma {:induction false} MassInConcat(m: seq<ScoreRow>, bg: Background, L: seq<seq<Symbol>>, R: seq<seq<Symbol>>, k: int)
    ensures MassIn(m, bg, L + R, k) == MassIn(m, bg, L, k) + MassIn(m, bg, R, k)
  {
    if L == [] {
      assert L + R == R;
    } else {
      MassInConcat(m, bg, L[1..], R, k);
      assert (L + R)[1..] == L[1..] + R;
    }
  }

  /** Appending column `a` adds `r[a]` to the total and multiplies the weight by `bg[a]`. */
  lemma ExtendChoice(m: seq<ScoreRow>, r: ScoreRow, bg: Background, x: seq<Symbol>, a: Symbol)
    requires |x| == |m|
    ensures Total(m + [r], x + [a]) == Total(m, x) + r[a]
    ensures Weight(bg, x + [a]) == Weigh(bg[a], Weight(bg, x))
  {
    assert (m + [r])[..|m|] == m;
    assert (x + [a])[..|x|] == x;
    WeightAppend(bg, x, a);
  }

  lemma {:induction false} WeightAppend(bg: Background, x: seq<Symbol>, a: Symbol)
    ensures Weight(bg, x + [a]) == Weigh(bg[a], Weight(bg, x))
  {
    if x == [] {
      assert [] + [a] == [a];
    } else {
      WeightAppend(bg, x[1..], a);
      assert (x + [a])[1..] == x[1..] + [a];
      Commute(bg[x[0]], bg[a], Weight(bg, x[1..]));
    }
  }

  lemma Commute(u: real, v: real, t: real)
    ensures Weigh(u, Weigh(v, t)) == Weigh(v, Weigh(u, t))
  {
  }

  lemma DistributeOver(b: real, u: real, v: real)
    ensures Weigh(b, u + v) == Weigh(b, u) + Weigh(b, v)
  {
  }

  /** One choice extended by column `a` scores `k` exactly when the choice scored `k - r[a]`. */
  lemma ExtendedTerm(m: seq<ScoreRow>, r: ScoreRow, bg: Background, x: seq<Symbol>, a: Symbol, k: int)
    ensures (if |x + [a]| == |m + [r]| && Total(m + [r], x + [a]) == k then Weight(bg, x + [a]) else 0.0)
         == Weigh(bg[a], if |x| == |m| && Total(m, x) == k - r[a] then Weight(bg, x) else 0.0)
  {
    if |x| == |m| {
      ExtendChoice(m, r, bg, x, a);
    } else {
      assert |x + [a]| != |m + [r]|;
    }
  }

  /** The choices of `L` extended by column `a` carry `bg[a]` times the mass of `L` at `k - r[a]`. */
  lemma {:induction false} MassInAppend(m: seq<ScoreRow>, r: ScoreRow, bg: Background, L: seq<seq<Symbol>>, a: Symbol, k: int)
    ensures MassIn(m + [r], bg, Append(L, a), k) == Weigh(bg[a], MassIn(m, bg, L, k - r[a]))
  {
    if L != [] {
      var E := Append(L, a);
      MassInAppend(m, r, bg, L[1..], a, k);
      var x := L[0];
      assert E[0] == x + [a] && E[1..] == Append(L[1..], a);
      ExtendedTerm(m, r, bg, x, a, k);
      var head := if |x| == |m| && Total(m, x) == k - r[a] then Weight(bg, x) else 0.0;
      DistributeOver(bg[a], head, MassIn(m, bg, L[1..], k - r[a]));
    }
  }

  /** Block `a` of the choices for `m` carries `bg[a]` times the mass of the shorter matrix at `k - r[a]`. */
  lemma MassBlock(m: seq<ScoreRow>, bg: Background, k: int, a: Symbol)
    requires m != []
    ensures MassIn(m, bg, Append(Choices(|m| - 1), a), k)
         == Weigh(bg[a], Mass(m[..|m| - 1], bg, k - m[|m| - 1][a]))
  {
    var p, r := m[..|m| - 1], m[|m| - 1];
    assert m == p + [r];
    MassInAppend(p, r, bg, Choices(|p|), a, k);
  }

  /** The mass of a matrix splits over the four blocks of its choices. */
  lemma MassSplit(m: seq<ScoreRow>, bg: Background, k: int)
    requires m != []
    ensures var P := Choices(|m| - 1);
      Mass(m, bg, k) == MassIn(m, bg, Append(P, 0), k) + MassIn(m, bg, Append(P, 1), k)
                      + MassIn(m, bg, Append(P, 2), k) + MassIn(m, bg, Append(P, 3), k)
  {
    var P := Choices(|m| - 1);
    var A0, A1, A2, A3 := Append(P, 0), Append(P, 1), Append(P, 2), Append(P, 3);
    assert Choices(|m|) == Blocks(P);
    MassInConcat(m, bg, A0 + A1 + A2, A3, k);
    MassInConcat(m, bg, A0 + A1, A2, k);
    MassInConcat(m, bg, A0, A1, k);
  }

  /** The mass of a matrix with one more row: one term per column of that row. */
  lemma MassStep(m: seq<ScoreRow>, bg: Background, k: int)
    requires m != []
    ensures var p, r := m[..|m| - 1], m[|m| - 1];
      Mass(m, bg, k) == Weigh(bg[0], Mass(p, bg, k - r[0])) + Weigh(bg[1], Mass(p, bg, k - r[1]))
                      + Weigh(bg[2], Mass(p, bg, k - r[2])) + Weigh(bg[3], Mass(p, bg, k - r[3]))
  {
    MassSplit(m, bg, k);
    MassBlock(m, bg, k, 0);
    MassBlock(m, bg, k, 1);
    MassBlock(m, bg, k, 2);
    MassBlock(m, bg, k, 3);
  }

  /** The recurrence and the enumeration agree: `Prob(m, bg, k)` is the weight of every choice scoring `k`. */
  lemma {:induction false} ProbIsMass(m: seq<ScoreRow>, bg: Background)
    ensures forall k :: Prob(m, bg, k) == Mass(m, bg, k)
  {
    if m == [] {
      assert Choices(0) == [[]];
      forall k ensures Prob(m, bg, k) == Mass(m, bg, k) {
        assert MassIn(m, bg, [[]], k) == (if k == 0 then 1.0 else 0.0) + MassIn(m, bg, [], k);
      }
    } else {
      ProbIsMass(m[..|m| - 1], bg);
      forall k ensures Prob(m, bg, k) == Mass(m, bg, k) {
        MassStep(m, bg, k);
      }
    }
  }

  /**
   * The row-by-row convolution equals the sum over every choice of columns:
   * the entry for each total score `k` is the background weight of all choices
   * scoring `k` (and 0 for a `k` outside the distribution's range).
   */
  lemma DistIsMass(m: seq<ScoreRow>, bg: Background, k: int)
    ensures Pick(Dist(m, bg), MinScore(m), k) == Mass(m, bg, k)
  {
    DistIsProb(m, bg);
    ProbIsMass(m, bg);
  }

  /**
   * When the least total is 0 (every row has a zero cell, as in all the test
   * matrices; scaling from the global minimum only promises a zero in the row
   * that holds it), entry `k` is the probability of score `k`.
   */
  lemma ZeroMinimumEntries(m: seq<ScoreRow>, bg: Background, k: nat)
    requires MinScore(m) == 0 && k < |Dist(m, bg)|
    ensures Dist(m, bg)[k] == Mass(m, bg, k)
  {
    DistIsMass(m, bg, k);
  }

  /** Each total lies between the matrix's least and greatest totals. */
  lemma {:induction false} TotalBounds(m: seq<ScoreRow>, x: seq<Symbol>)
    requires |x| == |m|
    ensures MinScore(m) <= Total(m, x) <= MaxScore(m)
  {
    if m != [] {
      TotalBounds(m[..|m| - 1], x[..|x| - 1]);
    }
  }
}
