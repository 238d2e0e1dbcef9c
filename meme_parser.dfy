/**
 * Reading motifs in the MEME Suite minimal text format (`detail::read_pwm`).
 * The text is read line by line. A line whose first token is `MOTIF` opens a
 * block and its second token names the motif; after any blank lines comes the
 * header `letter-probability matrix: alength= 4 w= <w> nsites= <n> ...`, and
 * then exactly `w` lines of four decimal probabilities, in A, C, G, T order.
 * Every other line outside a block (version, alphabet, strands, background)
 * is skipped. A malformed block fails the whole read with the index of the
 * offending line; nothing read before it is returned.
 */
module MemeParser {
  import opened Wrappers
  import opened Text
  import opened Numbers
  import opened ScoreMatrix

  /** The read failed at line `line` (counted from 0; the line count itself when the text ends early). */
  datatype ParseError = ParseError(line: nat)

  /** The tokens of every line of a text, line by line. */
  function Lex(text: string): (lines: seq<seq<string>>)
    ensures |lines| == |Split(text, {'\n'})|
    ensures forall i :: 0 <= i < |lines| ==> lines[i] == Tokens(Split(text, {'\n'})[i])
  {
    var raw := Split(text, {'\n'});
    seq(|raw|, i requires 0 <= i < |raw| => Tokens(raw[i]))
  }

  /** A line that opens a motif block. */
  predicate IsMotifLine(t: seq<string>)
  {
    |t| >= 1 && t[0] == "MOTIF"
  }

  /** The token following the first `key` among `t`, if there is one. */
  function Field(t: seq<string>, key: string): Option<string>
  {
    if |t| < 2 then None else if t[0] == key then Some(t[1]) else Field(t[1..], key)
  }

  /** The whole number following `key`, if it is a numeral. */
  function NatField(t: seq<string>, key: string): Option<nat>
  {
    match Field(t, key)
    case Some(s) => if IsNumeral(s) then Some(Value(s)) else None
    case None => None
  }

  /** What a block header declares: the motif width and its number of sites. */
  datatype Header = Header(width: nat, sites: nat)

  /**
   * The header of a block: it starts `letter-probability matrix:` and declares
   * an alphabet length of 4, a width and a number of sites.
   */
  function ParseHeader(t: seq<string>): (h: Option<Header>)
    ensures h.Some? ==> |t| >= 2 && t[0] == "letter-probability" && t[1] == "matrix:"
    ensures h.Some? ==> NatField(t, "alength=") == Some(AlphabetSize)
    ensures h.Some? ==> NatField(t, "w=") == Some(h.value.width) && NatField(t, "nsites=") == Some(h.value.sites)
    ensures (|t| >= 2 && t[0] == "letter-probability" && t[1] == "matrix:"
             && NatField(t, "alength=") == Some(AlphabetSize)
             && NatField(t, "w=").Some? && NatField(t, "nsites=").Some?)
            ==> h == Some(Header(NatField(t, "w=").value, NatField(t, "nsites=").value))
  {
    if !(|t| >= 2 && t[0] == "letter-probability" && t[1] == "matrix:") then None
    else
      match (NatField(t, "alength="), NatField(t, "w="), NatField(t, "nsites="))
      case (Some(len), Some(w), Some(n)) => if len == AlphabetSize then Some(Header(w, n)) else None
      case _ => None
  }

  /** Every token read as a decimal number, in order; None when one of them is not one. */
  function ParseCells(t: seq<string>): (r: Option<seq<real>>)
    ensures r.Some? ==> |r.value| == |t|
  {
    if t == [] then Some([])
    else
      match (ParseDecimal(t[0]), ParseCells(t[1..]))
      case (Some(x), Some(rest)) => Some([x] + rest)
      case _ => None
  }

  lemma {:induction false} ParseCellsAt(t: seq<string>, a: nat)
    requires ParseCells(t).Some? && a < |t|
    ensures ParseDecimal(t[a]) == Some(ParseCells(t).value[a])
  {
    if a > 0 {
      ParseCellsAt(t[1..], a - 1);
    }
  }

  /** A matrix row: exactly four tokens, each a decimal number. */
  function ParseRow(t: seq<string>): (r: Option<RealRow>)
    ensures r.Some? ==> |t| == AlphabetSize
  {
    if |t| != AlphabetSize then None
    else
      match ParseCells(t)
      case Some(cells) => Some(cells)
      case None => None
  }

  /** The first line from `i` on that is not blank, or the line count. */
  function SkipBlank(lines: seq<seq<string>>, i: nat): (k: nat)
    requires i <= |lines|
    ensures i <= k <= |lines| && (k < |lines| ==> lines[k] != [])
    ensures forall j :: i <= j < k ==> lines[j] == []
    decreases |lines| - i
  {
    if i == |lines| || lines[i] != [] then i else SkipBlank(lines, i + 1)
  }

  /** The `w` rows starting at line `i`: each line must be a row, and all `w` must be there. */
  function ReadRows(lines: seq<seq<string>>, i: nat, w: nat): (r: Result<seq<RealRow>, ParseError>)
    requires i <= |lines|
    ensures r.Ok? ==> |r.value| == w && i + w <= |lines|
    decreases w
  {
    if w == 0 then Ok([])
    else if i == |lines| then Err(ParseError(i))
    else
      match ParseRow(lines[i])
      case None => Err(ParseError(i))
      case Some(row) =>
        match ReadRows(lines, i + 1, w - 1)
        case Err(e) => Err(e)
        case Ok(rest) => Ok([row] + rest)
  }

  /** The rows read are the rows on lines `i .. i + w - 1`, in file order. */
  lemma {:induction false} ReadRowsAt(lines: seq<seq<string>>, i: nat, w: nat, rows: seq<RealRow>, j: nat)
    requires i <= j < |lines| && ReadRows(lines, i, w) == Ok(rows) && j < i + w
    ensures ParseRow(lines[j]) == Some(rows[j - i])
    decreases w
  {
    if j > i {
      var rest := ReadRows(lines, i + 1, w - 1).value;
      ReadRowsAt(lines, i + 1, w - 1, rest, j);
      assert rows == [rows[0]] + rest;
    }
  }

  /** Each cell of a row is the decimal number written in its column. */
  lemma RowCells(t: seq<string>, a: nat)
    requires ParseRow(t).Some? && a < AlphabetSize
    ensures ParseDecimal(t[a]) == Some(ParseRow(t).value[a])
  {
    ParseCellsAt(t, a);
  }

  /** A line of four tokens, each a decimal number. */
  predicate IsRowLine(t: seq<string>)
  {
    |t| == AlphabetSize && forall a :: 0 <= a < |t| ==> ParseDecimal(t[a]).Some?
  }

  /** The cells of a line are read exactly when every token is a decimal number. */
  lemma {:induction false} CellsAccept(t: seq<string>)
    ensures ParseCells(t).Some? <==> forall a :: 0 <= a < |t| ==> ParseDecimal(t[a]).Some?
  {
    if t != [] {
      CellsAccept(t[1..]);
      assert forall a :: 1 <= a < |t| ==> t[a] == t[1..][a - 1];
    }
  }

  /** A line is a matrix row exactly when it holds four decimal numbers. */
  lemma RowAccept(t: seq<string>)
    ensures ParseRow(t).Some? <==> IsRowLine(t)
  {
    CellsAccept(t);
  }

  /** `w` rows are read from line `i` exactly when the `w` lines from `i` are all there and all rows. */
  lemma {:induction false} RowsAccept(lines: seq<seq<string>>, i: nat, w: nat)
    requires i <= |lines|
    ensures ReadRows(lines, i, w).Ok? <==> i + w <= |lines| && forall j :: i <= j < i + w ==> IsRowLine(lines[j])
    decreases w
  {
    if w > 0 && i < |lines| {
      RowAccept(lines[i]);
      RowsAccept(lines, i + 1, w - 1);
    }
  }

  /** A block read from line `i`: the motif and the line after its last row. */
  datatype Block = Block(pwm: PWM, next: nat)

  /** The line holding the header of the block opened at line `i`. */
  function HeaderLine(lines: seq<seq<string>>, i: nat): (k: nat)
    requires i < |lines|
    ensures i < k <= |lines|
  {
    SkipBlank(lines, i + 1)
  }

  /**
   * The block opened at line `i`: the name is the token after `MOTIF`, the
   * number of sites comes from `nsites=`, and the matrix is the `w` rows after
   * the header.
   */
  function ReadMotif(lines: seq<seq<string>>, i: nat): (r: Result<Block, ParseError>)
    requires i < |lines| && IsMotifLine(lines[i])
    ensures r.Ok? ==> |lines[i]| >= 2 && r.value.pwm.name == lines[i][1]
    ensures r.Ok? ==> var k := HeaderLine(lines, i);
      k < |lines| && ParseHeader(lines[k]) == Some(Header(|r.value.pwm.matrix|, r.value.pwm.numberOfSites))
      && r.value.next == k + 1 + |r.value.pwm.matrix| <= |lines|
      && ReadRows(lines, k + 1, |r.value.pwm.matrix|) == Ok(r.value.pwm.matrix)
  {
    var t := lines[i];
    var k := HeaderLine(lines, i);
    if |t| < 2 then Err(ParseError(i))
    else if k == |lines| then Err(ParseError(k))
    else
      match ParseHeader(lines[k])
      case None => Err(ParseError(k))
      case Some(h) =>
        match ReadRows(lines, k + 1, h.width)
        case Err(e) => Err(e)
        case Ok(rows) => Ok(Block(PWM(t[1], h.sites, rows), k + 1 + h.width))
  }

  /**
   * The block opened at line `i` is well formed: its `MOTIF` line names the
   * motif, a header follows after any blank lines, and the `w` lines after
   * the header are all there and all rows.
   */
  predicate WellFormedBlock(lines: seq<seq<string>>, i: nat)
    requires i < |lines|
  {
    var k := HeaderLine(lines, i);
    IsMotifLine(lines[i]) && |lines[i]| >= 2 && k < |lines| && ParseHeader(lines[k]).Some?
    && k + 1 + ParseHeader(lines[k]).value.width <= |lines|
    && forall j :: k + 1 <= j < k + 1 + ParseHeader(lines[k]).value.width ==> IsRowLine(lines[j])
  }

  /** The line after the last row of a well-formed block. */
  function BlockEnd(lines: seq<seq<string>>, i: nat): (e: nat)
    requires i < |lines| && WellFormedBlock(lines, i)
    ensures i < e <= |lines|
  {
    HeaderLine(lines, i) + 1 + ParseHeader(lines[HeaderLine(lines, i)]).value.width
  }

  /** A block is read exactly when it is well formed, and then the read ends at its end. */
  lemma MotifAccept(lines: seq<seq<string>>, i: nat)
    requires i < |lines| && IsMotifLine(lines[i])
    ensures ReadMotif(lines, i).Ok? <==> WellFormedBlock(lines, i)
    ensures ReadMotif(lines, i).Ok? ==> ReadMotif(lines, i).value.next == BlockEnd(lines, i)
  {
    var k := HeaderLine(lines, i);
    if k < |lines| && ParseHeader(lines[k]).Some? {
      RowsAccept(lines, k + 1, ParseHeader(lines[k]).value.width);
    }
  }

  /** All motifs from line `i` on, in file order. */
  function ReadFrom(lines: seq<seq<string>>, i: nat): Result<seq<PWM>, ParseError>
    requires i <= |lines|
    decreases |lines| - i
  {
    if i == |lines| then Ok([])
    else if !IsMotifLine(lines[i]) then ReadFrom(lines, i + 1)
    else
      match ReadMotif(lines, i)
      case Err(e) => Err(e)
      case Ok(b) =>
        match ReadFrom(lines, b.next)
        case Err(e) => Err(e)
        case Ok(rest) => Ok([b.pwm] + rest)
  }

  /** `detail::read_pwm` on the whole text of a stream. */
  function ReadPwm(text: string): Result<seq<PWM>, ParseError>
  {
    ReadFrom(Lex(text), 0)
  }

  /** The number of lines from `i` on that open a motif block. */
  function MotifCount(lines: seq<seq<string>>, i: nat): nat
    requires i <= |lines|
    decreases |lines| - i
  {
    if i == |lines| then 0 else (if IsMotifLine(lines[i]) then 1 else 0) + MotifCount(lines, i + 1)
  }

  /** No line in `[i, j)` opens a motif block. */
  predicate NoMotifLine(lines: seq<seq<string>>, i: nat, j: nat)
    requires i <= j <= |lines|
  {
    forall k :: i <= k < j ==> !IsMotifLine(lines[k])
  }

  lemma {:induction false} CountSkips(lines: seq<seq<string>>, i: nat, j: nat)
    requires i <= j <= |lines| && NoMotifLine(lines, i, j)
    ensures MotifCount(lines, i) == MotifCount(lines, j)
    decreases j - i
  {
    if i < j {
      CountSkips(lines, i + 1, j);
    }
  }

  /** A decimal number is never the word `MOTIF`. */
  lemma MotifNotDecimal()
    ensures ParseDecimal("MOTIF") == None
  {
    assert !IsDigit("MOTIF"[0]);
    assert IndexOf("MOTIF", '.') == 5;
  }

  /** A matrix row does not open a block. */
  lemma RowNotMotif(t: seq<string>)
    requires ParseRow(t).Some?
    ensures !IsMotifLine(t)
  {
    MotifNotDecimal();
  }

  /** A block header does not open a block. */
  lemma HeaderNotMotif(t: seq<string>)
    requires ParseHeader(t).Some?
    ensures !IsMotifLine(t)
  {
    assert t[0][0] == 'l';
  }

  /** Inside a block (its blank lines, its header and its rows) no line opens another block. */
  lemma BlockHasNoMotifLine(lines: seq<seq<string>>, i: nat)
    requires i < |lines| && IsMotifLine(lines[i]) && ReadMotif(lines, i).Ok?
    ensures NoMotifLine(lines, i + 1, ReadMotif(lines, i).value.next)
  {
    var b := ReadMotif(lines, i).value;
    var k := HeaderLine(lines, i);
    var w := |b.pwm.matrix|;
    forall j | i + 1 <= j < b.next
      ensures !IsMotifLine(lines[j])
    {
      if j == k {
        HeaderNotMotif(lines[k]);
      } else if k < j {
        ReadRowsAt(lines, k + 1, w, b.pwm.matrix, j);
        RowNotMotif(lines[j]);
      }
    }
  }

  /** A successful read returns one motif per line that opens a block. */
  lemma {:induction false} OneMotifPerBlock(lines: seq<seq<string>>, i: nat)
    requires i <= |lines| && ReadFrom(lines, i).Ok?
    ensures |ReadFrom(lines, i).value| == MotifCount(lines, i)
    decreases |lines| - i
  {
    if i < |lines| {
      if !IsMotifLine(lines[i]) {
        OneMotifPerBlock(lines, i + 1);
      } else {
        var b := ReadMotif(lines, i).value;
        OneMotifPerBlock(lines, b.next);
        BlockHasNoMotifLine(lines, i);
        CountSkips(lines, i + 1, b.next);
      }
    }
  }

  /** Row `r` of a block read at line `i` holds the four numbers on the `r`-th line after the header. */
  lemma MotifRows(lines: seq<seq<string>>, i: nat, b: Block, r: nat)
    requires i < |lines| && IsMotifLine(lines[i]) && ReadMotif(lines, i) == Ok(b)
    requires r < |b.pwm.matrix|
    ensures HeaderLine(lines, i) + 1 + r < |lines|
    ensures ParseRow(lines[HeaderLine(lines, i) + 1 + r]) == Some(b.pwm.matrix[r])
  {
    var k := HeaderLine(lines, i);
    ReadRowsAt(lines, k + 1, |b.pwm.matrix|, b.pwm.matrix, k + 1 + r);
  }

  /** A text whose only block opens at line `i` and is well formed yields exactly the motif of that block. */
  lemma SingleBlock(lines: seq<seq<string>>, i: nat)
    requires i < |lines| && NoMotifLine(lines, 0, i) && WellFormedBlock(lines, i)
    requires NoMotifLine(lines, BlockEnd(lines, i), |lines|)
    ensures ReadMotif(lines, i).Ok? && ReadFrom(lines, 0) == Ok([ReadMotif(lines, i).value.pwm])
  {
    MotifAccept(lines, i);
    var b := ReadMotif(lines, i).value;
    SkipToEnd(lines, b.next);
    assert [b.pwm] + [] == [b.pwm];
    assert ReadFrom(lines, i) == Ok([b.pwm]);
    SkipTo(lines, 0, i);
  }

  /**
   * A text with a single well-formed block yields exactly one motif: it is
   * named by the token after `MOTIF`, has as many rows as the header's `w=`,
   * takes its number of sites from `nsites=`, and cell `a` of row `r` is the
   * number written in column `a` of the `r`-th line after the header.
   */
  lemma SingleMotif(lines: seq<seq<string>>, i: nat)
    requires i < |lines| && NoMotifLine(lines, 0, i) && WellFormedBlock(lines, i)
    requires NoMotifLine(lines, BlockEnd(lines, i), |lines|)
    ensures ReadFrom(lines, 0).Ok? && |ReadFrom(lines, 0).value| == 1
    ensures var p := ReadFrom(lines, 0).value[0]; var k := HeaderLine(lines, i);
      p.name == lines[i][1]
      && ParseHeader(lines[k]) == Some(Header(|p.matrix|, p.numberOfSites))
      && forall r, a :: 0 <= r < |p.matrix| && 0 <= a < AlphabetSize ==>
           ParseDecimal(lines[k + 1 + r][a]) == Some(p.matrix[r][a])
  {
    SingleBlock(lines, i);
    var b := ReadMotif(lines, i).value;
    forall r, a | 0 <= r < |b.pwm.matrix| && 0 <= a < AlphabetSize
      ensures ParseDecimal(lines[HeaderLine(lines, i) + 1 + r][a]) == Some(b.pwm.matrix[r][a])
    {
      MotifRows(lines, i, b, r);
      RowCells(lines[HeaderLine(lines, i) + 1 + r], a);
    }
  }

  /** Lines without a block are skipped. */
  lemma {:induction false} SkipTo(lines: seq<seq<string>>, i: nat, j: nat)
    requires i <= j <= |lines| && NoMotifLine(lines, i, j)
    ensures ReadFrom(lines, i) == ReadFrom(lines, j)
    decreases j - i
  {
    if i < j {
      SkipTo(lines, i + 1, j);
    }
  }

  /** A tail without blocks yields no motifs. */
  lemma SkipToEnd(lines: seq<seq<string>>, i: nat)
    requires i <= |lines| && NoMotifLine(lines, i, |lines|)
    ensures ReadFrom(lines, i) == Ok([])
  {
    SkipTo(lines, i, |lines|);
  }
}
