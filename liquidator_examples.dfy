/**
 * The cases of the liquidator unit tests, stated as lemmas about the model:
 * scoring a small scaled matrix, scaling a two-row matrix, the score
 * distributions of four small matrices, the log-odds conversion of a uniform
 * and a one-hot row, and the header of the sample MEME motif.
 */
module LiquidatorExamples {
  import opened Wrappers
  import opened Text
  import opened Numbers
  import opened ScoreMatrix
  import opened Scorer
  import opened Distribution
  import opened Scaler
  import opened LogOdds
  import opened MemeParser

  /** The scaled matrix of the scoring test: A, C, G score 24 and T 0 at the first position; only G scores (30) at the second. */
  const Scored: seq<ScoreRow> := [[24, 24, 24, 0], [0, 0, 30, 0]]

  /** Empty windows score 0, also at the very end of the string. */
  lemma EmptyWindows()
    ensures Score(Scored, "", 0, 0) == 0
    ensures Score(Scored, "AA", 0, 0) == 0
    ensures Score(Scored, "AG", 2, 2) == 0
  {
  }

  /** One character: A scores its cell, T its zero cell, and N or Z nothing. */
  lemma SingleCharacters()
    ensures Score(Scored, "A", 0, 1) == 24
    ensures Score(Scored, "T", 0, 1) == 0
    ensures Score(Scored, "N", 0, 1) == 0
    ensures Score(Scored, "Z", 0, 1) == 0
  {
    assert SymbolIndex('A') == Some(0);
    assert SymbolIndex('T') == Some(3);
    assert SymbolIndex('N') == None;
    assert SymbolIndex('Z') == None;
  }

  /**
   * Two-character windows: the window is read from row 0 wherever it starts,
   * lower-case letters count as upper-case ones, and characters outside the
   * window are ignored.
   */
  lemma TwoCharacterWindows()
    ensures Score(Scored, "AA", 0, 2) == 24
    ensures Score(Scored, "AA", 1, 2) == 24
    ensures Score(Scored, "AG", 0, 2) == 54
    ensures Score(Scored, "ag", 0, 2) == 54
    ensures Score(Scored, "AGN", 0, 2) == 54
    ensures Score(Scored, "NAGN", 1, 3) == 54
  {
    assert SymbolIndex('A') == Some(0);
    assert SymbolIndex('G') == Some(2);
    assert SymbolIndex('a') == Some(0);
    assert SymbolIndex('g') == Some(2);
    assert Score(Scored, "AA", 0, 1) == 24;
    assert Score(Scored, "AG", 0, 1) == 24;
    assert Score(Scored, "ag", 0, 1) == 24;
    assert Score(Scored, "AGN", 0, 1) == 24;
    assert Score(Scored, "NAGN", 1, 2) == 24;
  }

  /** The matrix of the scaling test, with its least (-8) and greatest (2) cell. */
  const Unscaled: PWM := PWM("", 10, [[0.0, 0.0, 0.0, 0.0], [-8.0, -8.0, 2.0, -8.0]])

  /**
   * Scaling it to a range of 30: the span is 10, so the scale is 3, the range
   * achieved is 30, a cell of 0 becomes 24, a cell of -8 becomes 0 and the
   * cell of 2 becomes 30.
   */
  lemma ScaleExample()
    ensures WithinBounds(Unscaled.matrix, -8.0, 2.0)
    ensures var sp := Scaler.Scale(Unscaled, -8.0, 2.0, 30);
      sp.numberOfSites == 10 && sp.minBeforeScaling == -8.0 && sp.scale == 3 && sp.range == 30
      && sp.matrix == [[24, 24, 24, 24], [0, 0, 30, 0]]
  {
    assert ScaleFactor(-8.0, 2.0, 30) == 3 by {
      assert (30 as real / (2.0 - -8.0)) == 3.0;
    }
    RoundWhole(24);
    RoundWhole(30);
    RoundWhole(0);
    assert Scaled(0.0, -8.0, 3) == 24.0;
    assert Scaled(-8.0, -8.0, 3) == 0.0;
    assert Scaled(2.0, -8.0, 3) == 30.0;
    var m := Unscaled.matrix;
    assert ScaleRow(m[0], -8.0, 3) == [24, 24, 24, 24];
    assert ScaleRow(m[1], -8.0, 3) == [0, 0, 30, 0];
    assert ScaleRows(m[1..], -8.0, 3) == [[0, 0, 30, 0]];
  }

  /** With no rows, and with rows of zeros only, the score 0 is certain. */
  lemma CertainZero()
    ensures Dist([], Uniform) == [1.0]
    ensures Dist([[0, 0, 0, 0], [0, 0, 0, 0]], Uniform) == [1.0]
  {
    var z: ScoreRow := [0, 0, 0, 0];
    var m := [z, z];
    assert m[..1] == [z] && [z][..0] == [];
    assert Dist([z], Uniform) == Step([1.0], z, Uniform);
    StepIndex([1.0], z, Uniform, 0);
    assert Dist([z], Uniform) == [1.0];
    assert Dist(m, Uniform) == Step([1.0], z, Uniform);
  }

  /** One row scoring 1 for G only: score 0 with probability 3/4, score 1 with 1/4. */
  lemma OneRowDistribution()
    ensures Dist([[0, 0, 1, 0]], Uniform) == [0.75, 0.25]
  {
    var r: ScoreRow := [0, 0, 1, 0];
    assert [r][..0] == [];
    assert Dist([r], Uniform) == Step([1.0], r, Uniform);
    assert RowMin(r) == 0 && RowMax(r) == 1;
    assert StepAt([1.0], r, Uniform, 0) == 0.75 by {
      assert Offset(r, 2) == 1;
      assert Pick([1.0], 1, 0) == 0.0;
    }
    assert StepAt([1.0], r, Uniform, 1) == 0.25 by {
      assert Offset(r, 0) == 0 && Offset(r, 1) == 0 && Offset(r, 3) == 0;
      assert Pick([1.0], 0, 1) == 0.0;
    }
    StepIndex([1.0], r, Uniform, 0);
    StepIndex([1.0], r, Uniform, 1);
  }

  /** After the first row `{0,0,1,1}`, scores 0 and 1 are equally likely. */
  lemma FirstOfTwoRows()
    ensures Dist([[0, 0, 1, 1]], Uniform) == [0.5, 0.5]
  {
    var r0: ScoreRow := [0, 0, 1, 1];
    assert [r0][..0] == [];
    assert Dist([r0], Uniform) == Step([1.0], r0, Uniform);
    assert RowMin(r0) == 0 && RowMax(r0) == 1;
    assert StepAt([1.0], r0, Uniform, 0) == 0.5 by {
      assert Pick([1.0], 1, 0) == 0.0;
    }
    assert StepAt([1.0], r0, Uniform, 1) == 0.5 by {
      assert Pick([1.0], 0, 1) == 0.0;
    }
    StepIndex([1.0], r0, Uniform, 0);
    StepIndex([1.0], r0, Uniform, 1);
  }

  /** Convolving the even split with the second row `{1,0,1,0}`. */
  lemma SecondOfTwoRows()
    ensures Step([0.5, 0.5], [1, 0, 1, 0], Uniform) == [0.25, 0.5, 0.25]
  {
    var r1: ScoreRow := [1, 0, 1, 0];
    var d := [0.5, 0.5];
    assert RowMin(r1) == 0 && RowMax(r1) == 1;
    assert StepAt(d, r1, Uniform, 0) == 0.25 by {
      assert Pick(d, 1, 0) == 0.0 && Pick(d, 0, 0) == 0.5;
    }
    assert StepAt(d, r1, Uniform, 1) == 0.5 by {
      assert Pick(d, 1, 1) == 0.5 && Pick(d, 0, 1) == 0.5;
    }
    assert StepAt(d, r1, Uniform, 2) == 0.25 by {
      assert Pick(d, 1, 2) == 0.5 && Pick(d, 0, 2) == 0.0;
    }
    StepIndex(d, r1, Uniform, 0);
    StepIndex(d, r1, Uniform, 1);
    StepIndex(d, r1, Uniform, 2);
  }

  /**
   * Two rows, `{0,0,1,1}` and `{1,0,1,0}`: of the 16 sequences, 4 score 0,
   * 8 score 1 and 4 score 2.
   */
  lemma TwoRowDistribution()
    ensures Dist([[0, 0, 1, 1], [1, 0, 1, 0]], Uniform) == [0.25, 0.5, 0.25]
  {
    var m: seq<ScoreRow> := [[0, 0, 1, 1], [1, 0, 1, 0]];
    assert m[..1] == [[0, 0, 1, 1]];
    FirstOfTwoRows();
    SecondOfTwoRows();
  }

  /** The matrix of the log-odds test: a uniform row and a row certain of G, from 18 sites. */
  const Probabilities: PWM := PWM("", 18, [[0.25, 0.25, 0.25, 0.25], [0.0, 0.0, 1.0, 0.0]])

  /** `log2` is increasing and `log2(1) = 0`. */
  ghost predicate LogLike(log2: real -> real)
  {
    log2(1.0) == 0.0 && forall x: real, y: real :: 0.0 < x < y ==> log2(x) < log2(y)
  }

  /**
   * The uniform row scores 0 throughout; in the one-hot row the bases of
   * probability 0 score the logarithm of the smoothed ratio for 0, G that
   * for 1; the least cell is the former and the greatest the latter.
   */
  lemma LogOddsExample(log2: real -> real)
    requires LogLike(log2)
    ensures var zero := log2((PseudoSites * 0.25 / (18.0 + PseudoSites)) / 0.25);
      var one := log2((18.0 + PseudoSites * 0.25) / (18.0 + PseudoSites) / 0.25);
      var c := LogAdjustedLikelihoodRatio(log2, Probabilities, Uniform);
      c.pwm.numberOfSites == 18
      && c.pwm.matrix == [[0.0, 0.0, 0.0, 0.0], [zero, zero, one, zero]]
      && c.min == zero && c.max == one
  {
    var zr := (PseudoSites * 0.25 / (18.0 + PseudoSites)) / 0.25;
    var or := (18.0 + PseudoSites * 0.25) / (18.0 + PseudoSites) / 0.25;
    assert Adjusted(18, 0.0, 0.25) / 0.25 == zr;
    assert Adjusted(18, 1.0, 0.25) / 0.25 == or;
    assert 0.0 < zr < 1.0;
    assert 1.0 < or;
    assert log2(zr) < 0.0 < log2(or);
    var m := Probabilities.matrix;
    assert UniformRow(m[0]) && !UniformRow(m[1]);
    var q := ConvertRows(log2, 18, m, Uniform);
    assert ConvertRows(log2, 18, m[1..], Uniform) == [ConvertRow(log2, 18, m[1], Uniform)];
    assert q == [[0.0, 0.0, 0.0, 0.0], [log2(zr), log2(zr), log2(or), log2(zr)]];
    assert q[1..] == [[log2(zr), log2(zr), log2(or), log2(zr)]];
    assert RowLeast(q[0]) == 0.0 && RowGreatest(q[0]) == 0.0;
    assert RowLeast(q[1]) == log2(zr) && RowGreatest(q[1]) == log2(or);
    assert CellsLeast(q[1..]) == log2(zr) && CellsGreatest(q[1..]) == log2(or);
    assert CellsLeast(q) == log2(zr) && CellsGreatest(q) == log2(or);
  }

  /** The tokens of the header line of the sample motif. */
  const HeaderTokens: seq<string> :=
    ["letter-probability", "matrix:", "alength=", "4", "w=", "10", "nsites=", "18", "E=", "0"]

  /** The header line of the sample motif declares 10 rows from 18 sites. */
  lemma HeaderExample()
    ensures ParseHeader(HeaderTokens) == Some(Header(10, 18))
  {
    AlphabetLengthField();
    WidthField();
    SitesField();
  }

  lemma AlphabetLengthField()
    ensures NatField(HeaderTokens, "alength=") == Some(4)
  {
    var t := HeaderTokens;
    assert Field(t, "alength=") == Some("4");
    assert Value("4") == 4;
  }

  lemma WidthField()
    ensures NatField(HeaderTokens, "w=") == Some(10)
  {
    var t := HeaderTokens;
    assert Field(t[4..], "w=") == Some("10");
    assert t[1..][1..][1..][1..] == t[4..];
    assert Value("10") == 10 by {
      assert "10"[..1] == "1";
    }
  }

  lemma SitesField()
    ensures NatField(HeaderTokens, "nsites=") == Some(18)
  {
    var t := HeaderTokens;
    assert Field(t[6..], "nsites=") == Some("18");
    assert t[1..][1..][1..][1..] == t[4..];
    assert t[4..][1..][1..] == t[6..];
    assert Value("18") == 18 by {
      assert "18"[..1] == "1";
    }
  }

  /** The rows of the sample motif, one line of four tokens each. */
  const RowTokens: seq<seq<string>> :=
    [["0.000000", "0.222222", "0.611111", "0.166667"],
     ["0.000000", "0.000000", "0.944444", "0.055556"],
     ["0.000000", "0.000000", "1.000000", "0.000000"],
     ["0.611111", "0.000000", "0.388889", "0.000000"],
     ["0.555556", "0.166667", "0.222222", "0.055556"],
     ["0.111111", "0.000000", "0.000000", "0.888889"],
     ["0.000000", "0.000000", "0.000000", "1.000000"],
     ["0.000000", "0.111111", "0.000000", "0.888889"],
     ["0.000000", "1.000000", "0.000000", "0.000000"],
     ["0.000000", "1.000000", "0.000000", "0.000000"]]

  /**
   * The sample MEME text of the reading test, as the token lines it splits
   * into: a preamble without motif lines, the `MOTIF` line at line 9, a blank
   * line, the header at line 11 and the ten rows after it.
   */
  const TestLines: seq<seq<string>> :=
    [["MEME", "version", "4"], [], ["ALPHABET=", "ACGT"], [], ["strands:", "+"], [],
     ["Background", "letter", "frequencies"], ["A", "0.29", "C", "0.21", "G", "0.21", "T", "0.29"], [],
     ["MOTIF", "JASPAR2014.MA0107.1", "RELA"], [], HeaderTokens] + RowTokens

  /** A token of one digit, a point and six digits, as every cell of the sample rows is written. */
  predicate SixPlaces(s: string)
  {
    |s| == 8 && IsDigit(s[0]) && s[1] == '.' && AllDigits(s[2..])
  }

  lemma SixPlacesDecimal(s: string)
    requires SixPlaces(s)
    ensures ParseDecimal(s).Some?
  {
    assert s == s[..1] + "." + s[2..];
    DecimalValue(s[..1], s[2..]);
  }

  lemma FourDecimals(a: string, b: string, c: string, d: string)
    requires SixPlaces(a) && SixPlaces(b) && SixPlaces(c) && SixPlaces(d)
    ensures IsRowLine([a, b, c, d])
  {
    SixPlacesDecimal(a);
    SixPlacesDecimal(b);
    SixPlacesDecimal(c);
    SixPlacesDecimal(d);
    var t := [a, b, c, d];
    assert t[0] == a && t[1] == b && t[2] == c && t[3] == d;
  }

  lemma SampleRows0()
    ensures IsRowLine(RowTokens[0]) && IsRowLine(RowTokens[1])
  {
    FourDecimals("0.000000", "0.222222", "0.611111", "0.166667");
    FourDecimals("0.000000", "0.000000", "0.944444", "0.055556");
  }

  lemma SampleRows2()
    ensures IsRowLine(RowTokens[2]) && IsRowLine(RowTokens[3])
  {
    FourDecimals("0.000000", "0.000000", "1.000000", "0.000000");
    FourDecimals("0.611111", "0.000000", "0.388889", "0.000000");
  }

  lemma SampleRows4()
    ensures IsRowLine(RowTokens[4]) && IsRowLine(RowTokens[5])
  {
    FourDecimals("0.555556", "0.166667", "0.222222", "0.055556");
    FourDecimals("0.111111", "0.000000", "0.000000", "0.888889");
  }

  lemma SampleRows6()
    ensures IsRowLine(RowTokens[6]) && IsRowLine(RowTokens[7])
  {
    FourDecimals("0.000000", "0.000000", "0.000000", "1.000000");
    FourDecimals("0.000000", "0.111111", "0.000000", "0.888889");
  }

  lemma SampleRows8()
    ensures IsRowLine(RowTokens[8]) && IsRowLine(RowTokens[9])
  {
    FourDecimals("0.000000", "1.000000", "0.000000", "0.000000");
    FourDecimals("0.000000", "1.000000", "0.000000", "0.000000");
  }

  /** Each of the ten sample rows is a matrix row. */
  lemma SampleRows()
    ensures forall r :: 0 <= r < |RowTokens| ==> IsRowLine(RowTokens[r])
  {
    SampleRows0();
    SampleRows2();
    SampleRows4();
    SampleRows6();
    SampleRows8();
  }

  /** The block at line 9 is well formed and ends with the text. */
  lemma SampleBlock()
    ensures HeaderLine(TestLines, 9) == 11
    ensures WellFormedBlock(TestLines, 9) && BlockEnd(TestLines, 9) == |TestLines|
  {
    var lines := TestLines;
    assert lines[10] == [] && lines[11] == HeaderTokens;
    assert SkipBlank(lines, 11) == 11;
    assert HeaderLine(lines, 9) == 11;
    HeaderExample();
    SampleRows();
    assert forall j :: 12 <= j < 22 ==> lines[j] == RowTokens[j - 12];
  }

  /** No line before the block is a motif line. */
  lemma SamplePreamble()
    ensures NoMotifLine(TestLines, 0, 9)
  {
    var lines := TestLines;
    assert lines[0][0] == "MEME" && lines[2][0] == "ALPHABET=" && lines[4][0] == "strands:";
    assert lines[6][0] == "Background" && lines[7][0] == "A";
    assert lines[1] == [] && lines[3] == [] && lines[5] == [] && lines[8] == [];
  }

  /** Any lines laid out as the sample text is read as the sample motif. */
  lemma SampleLayout(lines: seq<seq<string>>)
    requires |lines| == 22 && |lines[9]| >= 2 && lines[11] == HeaderTokens
    requires NoMotifLine(lines, 0, 9) && WellFormedBlock(lines, 9)
    requires HeaderLine(lines, 9) == 11 && BlockEnd(lines, 9) == |lines|
    requires forall r :: 0 <= r < 10 ==> lines[12 + r] == RowTokens[r]
    ensures ReadFrom(lines, 0).Ok? && |ReadFrom(lines, 0).value| == 1
    ensures var p := ReadFrom(lines, 0).value[0];
      p.name == lines[9][1] && |p.matrix| == 10 && p.numberOfSites == 18
      && forall r, a :: 0 <= r < 10 && 0 <= a < AlphabetSize ==>
           ParseDecimal(RowTokens[r][a]) == Some(p.matrix[r][a])
  {
    SingleMotif(lines, 9);
    HeaderExample();
  }

  /**
   * Reading the sample text yields one motif, named `JASPAR2014.MA0107.1`,
   * with ten rows of four cells from 18 sites, each cell the number written
   * at its place in the text.
   */
  lemma ReadPwmExample()
    ensures ReadFrom(TestLines, 0).Ok? && |ReadFrom(TestLines, 0).value| == 1
    ensures var p := ReadFrom(TestLines, 0).value[0];
      p.name == "JASPAR2014.MA0107.1" && |p.matrix| == 10 && p.numberOfSites == 18
      && forall r, a :: 0 <= r < 10 && 0 <= a < AlphabetSize ==>
           ParseDecimal(RowTokens[r][a]) == Some(p.matrix[r][a])
  {
    SampleBlock();
    SamplePreamble();
    assert TestLines[9][1] == "JASPAR2014.MA0107.1" && TestLines[11] == HeaderTokens;
    assert forall r :: 0 <= r < 10 ==> TestLines[12 + r] == RowTokens[r];
    SampleLayout(TestLines);
  }

  lemma ValueSnoc(s: string, c: char)
    requires AllDigits(s) && IsDigit(c)
    ensures AllDigits(s + [c]) && Value(s + [c]) == 10 * Value(s) + DigitValue(c)
  {
    assert (s + [c])[..|s|] == s;
  }

  lemma SixDigits(a: char, b: char, c: char, d: char, e: char, g: char)
    requires IsDigit(a) && IsDigit(b) && IsDigit(c) && IsDigit(d) && IsDigit(e) && IsDigit(g)
    ensures AllDigits([a, b, c, d, e, g])
    ensures Value([a, b, c, d, e, g]) ==
      ((((DigitValue(a) * 10 + DigitValue(b)) * 10 + DigitValue(c)) * 10 + DigitValue(d)) * 10 + DigitValue(e)) * 10 + DigitValue(g)
  {
    ValueSnoc([], a);
    assert [] + [a] == [a];
    ValueSnoc([a], b);
    assert [a] + [b] == [a, b];
    ValueSnoc([a, b], c);
    assert [a, b] + [c] == [a, b, c];
    ValueSnoc([a, b, c], d);
    assert [a, b, c] + [d] == [a, b, c, d];
    ValueSnoc([a, b, c, d], e);
    assert [a, b, c, d] + [e] == [a, b, c, d, e];
    ValueSnoc([a, b, c, d, e], g);
    assert [a, b, c, d, e] + [g] == [a, b, c, d, e, g];
  }

  /** The value of six fraction digits. */
  lemma SixFractionDigits(f: string)
    requires |f| == 6 && AllDigits(f)
    ensures Value(f) ==
      ((((DigitValue(f[0]) * 10 + DigitValue(f[1])) * 10 + DigitValue(f[2])) * 10 + DigitValue(f[3])) * 10
        + DigitValue(f[4])) * 10 + DigitValue(f[5])
    ensures Pow10(|f|) == 1000000
  {
    assert f == [f[0], f[1], f[2], f[3], f[4], f[5]];
    SixDigits(f[0], f[1], f[2], f[3], f[4], f[5]);
  }

  /** The value of a token of one digit, a point and six digits. */
  lemma SixPlacesValue(s: string)
    requires SixPlaces(s)
    ensures ParseDecimal(s) == Some(DigitValue(s[0]) as real +
      (((((DigitValue(s[2]) * 10 + DigitValue(s[3])) * 10 + DigitValue(s[4])) * 10 + DigitValue(s[5])) * 10
        + DigitValue(s[6])) * 10 + DigitValue(s[7])) as real / 1000000.0)
  {
    var w, f := s[..1], s[2..];
    assert s == w + "." + f;
    DecimalValue(w, f);
    ValueSnoc([], s[0]);
    assert [] + [s[0]] == w;
    SixFractionDigits(f);
    assert f[0] == s[2] && f[1] == s[3] && f[2] == s[4] && f[3] == s[5] && f[4] == s[6] && f[5] == s[7];
  }

  /** A cell read from a token of one digit, a point and six digits is that digit plus the six digits over a million. */
  lemma SixPlacesCell(t: string, x: real)
    requires SixPlaces(t) && ParseDecimal(t) == Some(x)
    ensures x == DigitValue(t[0]) as real +
      (((((DigitValue(t[2]) * 10 + DigitValue(t[3])) * 10 + DigitValue(t[4])) * 10 + DigitValue(t[5])) * 10
        + DigitValue(t[6])) * 10 + DigitValue(t[7])) as real / 1000000.0
  {
    SixPlacesValue(t);
  }

  /** The sample rows' cells, as read into a matrix. */
  predicate ReadFromRows(m: seq<RealRow>)
  {
    |m| == 10 && forall r, a :: 0 <= r < 10 && 0 <= a < AlphabetSize ==> ParseDecimal(RowTokens[r][a]) == Some(m[r][a])
  }

  lemma SampleCell00(m: seq<RealRow>)
    requires ReadFromRows(m)
    ensures m[0][0] == 0.0
  {
    SixPlacesCell(RowTokens[0][0], m[0][0]);
  }

  lemma SampleCell01(m: seq<RealRow>)
    requires ReadFromRows(m)
    ensures m[0][1] == 0.222222
  {
    SixPlacesCell(RowTokens[0][1], m[0][1]);
  }

  lemma SampleCell32(m: seq<RealRow>)
    requires ReadFromRows(m)
    ensures m[3][2] == 0.388889
  {
    SixPlacesCell(RowTokens[3][2], m[3][2]);
  }

  lemma SampleCell63(m: seq<RealRow>)
    requires ReadFromRows(m)
    ensures m[6][3] == 1.0
  {
    SixPlacesCell(RowTokens[6][3], m[6][3]);
  }

  lemma SampleCell91(m: seq<RealRow>)
    requires ReadFromRows(m)
    ensures m[9][1] == 1.0
  {
    SixPlacesCell(RowTokens[9][1], m[9][1]);
  }

  /** The cells the reading test checks: row 0 holds 0 and 0.222222, row 3 holds 0.388889, rows 6 and 9 hold 1. */
  lemma ReadPwmCells()
    ensures ReadFrom(TestLines, 0).Ok? && |ReadFrom(TestLines, 0).value| == 1
    ensures var m := ReadFrom(TestLines, 0).value[0].matrix;
      |m| == 10 && m[0][0] == 0.0 && m[0][1] == 0.222222 && m[3][2] == 0.388889 && m[6][3] == 1.0 && m[9][1] == 1.0
  {
    ReadPwmExample();
    var m := ReadFrom(TestLines, 0).value[0].matrix;
    SampleCell00(m);
    SampleCell01(m);
    SampleCell32(m);
    SampleCell63(m);
    SampleCell91(m);
  }
}
