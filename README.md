# BAM2GFF core: motif scoring and gene flank coordinates

This project models two parts of BAM2GFF and proves properties of each.

**The liquidator motif scorer** (`liquidator/test.cpp`) is modelled in the
shape that its unit tests pin down. The parts are:

- reading MEME position weight matrices (`detail::read_pwm`);
- turning probabilities into log-odds scores (`detail::log_adjusted_likelihood_ratio`);
- scaling a real matrix onto the integers `0 .. range` (`detail::scale`);
- scoring a window of a DNA string against a scaled matrix (`detail::score`);
- the probability distribution of a random window's score under a
  background distribution (`detail::probability_distribution`).

The distribution is computed imperatively, as the library does: a
convolution over arrays, one matrix row at a time. That method is proved
equal to a recursive specification. The specification in turn is proved
equal to brute-force enumeration of all `4^n` windows. It sums to 1 and it
has no negative entries.

**The GTF/GFF gene script** (`bin/BAM2GFF_gtftogenes.py`) is modelled in
two parts:

- `parse_genelocations`: an imperative method with the script's sequential
  clamps. It is proved equal to a pure `Locate` function. That function
  raises the script's exceptions, in the script's order, as error values.
- The per-line rewriting and filtering of `main` for `.gff` and `.gtf`
  inputs.

The properties proved include:

- centred promoters and adjacent upstream and downstream intervals;
- the mirror image between the two strands;
- exactly which endpoints the clamps change;
- that each output record keeps every input field except the two
  coordinates, which read back as the integers written.

Modules:

- `Wrappers`: `Option` and `Result`.
- `Text`: Python's `str.split` with one separator, `join`, and whitespace
  tokenising.
- `Numbers`: `int()`, `str()` and decimal literals.
- `ScoreMatrix`, `Scorer`, `Scaler`, `LogOdds`, `MemeParser`: the liquidator
  entities and operations.
- `Distribution`, `Enumeration`, `DistributionMethod`, `SequenceScores`:
  the distribution.
- `LiquidatorExamples`: the unit tests' own cases, proved.
- `GeneLocations`, `GeneRecords`: the Python script.

## Model

| member | source | states |
|---|---|---|
| ScoreMatrix.SymbolIndex | liquidator/test.cpp:120-128 | a character names a column exactly when its upper-case form is one of A, C, G, T, and that column is the letter's position in ACGT |
| ScoreMatrix.SymbolIndexOfLetter | liquidator/test.cpp:120-121 | each of A, C, G, T names its own column |
| ScoreMatrix.RowMin | liquidator/test.cpp:143-150 | the least cell of a row bounds every cell from below and is one of them |
| ScoreMatrix.RowMax | liquidator/test.cpp:152-162 | the greatest cell of a row bounds every cell from above and is one of them |
| ScoreMatrix.MinBelowMax | liquidator/test.cpp:177-178 | a matrix's least total score never exceeds its greatest, so the distribution has at least one entry |
| Scorer.Cell | liquidator/test.cpp:120-123 | A or a adds the row's A cell, C or c its C cell, G or g its G cell, T or t its T cell, and every other character (N, Z) adds 0 |
| Scorer.Score | liquidator/test.cpp:114-130 | definition: the sum of each window character's cell against the row of its offset in the window; its properties are stated by ScoreEmpty, ScoreSplit, ScoreWindow, ScoreSame, ScoreIgnoresCase, ScoreBounds and SequenceScores.ScoreIsTotal |
| Scorer.ScoreEmpty | liquidator/test.cpp:116-118 | an empty window scores 0 at any position, including the string's end |
| Scorer.ScoreSplit | liquidator/test.cpp:125-130 | a window's score is its first part's score plus its second part's score against the rows after those the first part used |
| Scorer.ScoreWindow | liquidator/test.cpp:126-130 | only the characters inside the window matter: the window scored in place equals the cut-out window scored from 0 |
| Scorer.ScoreSame | liquidator/test.cpp:129-130 | two strings whose characters in the window name the same columns score the same |
| Scorer.ScoreIgnoresCase | liquidator/test.cpp:127-128 | a window scores the same in upper and in lower case |
| Scorer.ScoreBounds | liquidator/test.cpp:116-130 | a window's score is at most the greatest total of the rows it uses, and at least their least total when it holds only nucleotides |
| SequenceScores.ScoreIsTotal | liquidator/test.cpp:168-176 | a nucleotide string as long as the matrix scores the total of the columns it names, tying the scorer to the enumeration |
| Scaler.Round | liquidator/test.cpp:98-105 | rounding yields the integer within one half of the value, ties going up |
| Scaler.RoundWhole | liquidator/test.cpp:98-105 | a whole number rounds to itself |
| Scaler.RoundMonotone | liquidator/test.cpp:98-105 | rounding preserves order |
| Scaler.ScaleFactor | liquidator/test.cpp:88-95 | the scale is the largest whole factor whose span is within the requested range, and 0 for a span of 0 |
| Scaler.ScaleAtLeastOne | liquidator/test.cpp:95 | a range at least as wide as a non-empty span gives a scale of at least 1 |
| Scaler.ScaleCell | liquidator/test.cpp:98-106 | a scaled cell is within one half of the scale times its distance above the minimum |
| Scaler.ScaleRow | liquidator/test.cpp:98-106 | definition: one row scaled cell by cell; cell a of it is stated by ScaleRowsAt and ScaledCell |
| Scaler.ScaleRows | liquidator/test.cpp:90-91 | scaling keeps the number of rows |
| Scaler.ScaleRowsAt | liquidator/test.cpp:98-106 | cell i, a of the scaled rows is cell i, a of the input scaled |
| Scaler.Scale | liquidator/test.cpp:88-96 | the result keeps the number of sites and rows, records the minimum before scaling, uses the largest fitting scale, and its range is within one half of the span times the scale |
| Scaler.RangeExact | liquidator/test.cpp:95-96 | where the span times the scale is a whole number, the range is exactly that number (30 in the test) |
| Scaler.ScaledCell | liquidator/test.cpp:98-106 | each scaled cell is the rounded scaled distance of its input cell above the minimum |
| Scaler.ScaledCellExact | liquidator/test.cpp:98-106 | where that scaled distance is a whole number, the cell equals it exactly |
| Scaler.RangeWithinTarget | liquidator/test.cpp:95-96 | the achieved range never exceeds the requested one |
| Scaler.CellsWithinRange | liquidator/test.cpp:98-106 | every scaled cell lies between 0 and the achieved range |
| Scaler.ScaledMonotone | liquidator/test.cpp:98-106 | scaling never reverses the order of two cells: a cell no greater than another becomes an integer cell no greater |
| Scaler.LeastCell | liquidator/test.cpp:103-104 | a cell equal to the minimum scales to 0 |
| Scaler.GreatestCell | liquidator/test.cpp:105 | a cell equal to the maximum scales to the achieved range |
| LiquidatorExamples.EmptyWindows | liquidator/test.cpp:116-118 | the test's empty windows score 0 |
| LiquidatorExamples.SingleCharacters | liquidator/test.cpp:120-123 | the test's one-letter windows score 24, 0, 0 and 0 |
| LiquidatorExamples.TwoCharacterWindows | liquidator/test.cpp:125-130 | the test's two-letter windows score 24, 24, 54, 54, 54 and 54 |
| LiquidatorExamples.ScaleExample | liquidator/test.cpp:83-107 | the test matrix scales with minimum -8, scale 3 and range 30 to the rows 24 24 24 24 and 0 0 30 0 |
| LiquidatorExamples.CertainZero | liquidator/test.cpp:137-150 | the empty matrix and the all-zero matrix both give the distribution [1] |
| LiquidatorExamples.OneRowDistribution | liquidator/test.cpp:152-162 | the one-row matrix gives [0.75, 0.25] |
| LiquidatorExamples.FirstOfTwoRows | liquidator/test.cpp:164-166 | the first row of the two-row test gives [0.5, 0.5] |
| LiquidatorExamples.SecondOfTwoRows | liquidator/test.cpp:164-167 | convolving [0.5, 0.5] with the second row gives [0.25, 0.5, 0.25] |
| LiquidatorExamples.TwoRowDistribution | liquidator/test.cpp:164-181 | the two-row matrix gives [0.25, 0.5, 0.25] |
| LiquidatorExamples.LogOddsExample | liquidator/test.cpp:54-81 | for any logarithm with log(1) = 0 and preserving order, the test matrix converts to a zero row and a row of zero, zero, one, zero, with min zero and max one |
| LiquidatorExamples.HeaderExample | liquidator/test.cpp:23 | the test's header line declares width 10 and 18 sites |
| LiquidatorExamples.AlphabetLengthField | liquidator/test.cpp:23 | its alength field reads 4 |
| LiquidatorExamples.WidthField | liquidator/test.cpp:23 | its w field reads 10 |
| LiquidatorExamples.SitesField | liquidator/test.cpp:23 | its nsites field reads 18 |
| LiquidatorExamples.SampleBlock | liquidator/test.cpp:21-33 | the test text's block at line 9 is well formed, has its header at line 11, and ends with the text |
| LiquidatorExamples.SamplePreamble | liquidator/test.cpp:12-19 | no line of the preamble is a MOTIF line |
| LiquidatorExamples.SampleRows | liquidator/test.cpp:24-33 | each of the ten lines after the header holds four decimal numbers |
| LiquidatorExamples.SixPlacesValue | liquidator/test.cpp:24-33 | a token of one digit, a point and six digits reads as that digit plus the six digits over a million |
| LiquidatorExamples.ReadPwmExample | liquidator/test.cpp:10-41 | the test text yields one motif named JASPAR2014.MA0107.1 with 10 rows and 18 sites, each cell the number written in its place |
| LiquidatorExamples.ReadPwmCells | liquidator/test.cpp:43-51 | its cells 0,0 and 0,1 and 3,2 and 6,3 and 9,1 are 0, 0.222222, 0.388889, 1 and 1 |
| Distribution.Step | liquidator/test.cpp:164-177 | one row's convolution lengthens the distribution by the row's span |
| Distribution.StepIndex | liquidator/test.cpp:164-177 | each entry of a step is the background-weighted sum of the entries the four columns shift onto it |
| Distribution.Dist | liquidator/test.cpp:139-140 | the distribution has one entry per total from the least to the greatest |
| Distribution.StepSum | liquidator/test.cpp:161-162 | with a background summing to 1, a step keeps the total mass |
| Distribution.DistSumsToOne | liquidator/test.cpp:140-141 | with a background summing to 1, the distribution sums to 1 |
| Distribution.DistIsProb | liquidator/test.cpp:168-181 | entry i is the recurrence's probability of total least + i, and every other total has probability 0 |
| Distribution.Prob | liquidator/test.cpp:164-181 | definition: the recurrence for the probability of total k, one row at a time; DistIsProb ties the distribution to it and Enumeration.ProbIsMass ties it to brute-force enumeration |
| Distribution.StepNonNegative | liquidator/test.cpp:159-162 | a step over a non-negative background keeps entries non-negative |
| Distribution.DistNonNegative | liquidator/test.cpp:177-181 | with a non-negative background no entry is negative |
| Distribution.SumShift | liquidator/test.cpp:164-177 | placing a distribution inside zeros keeps its mass |
| Distribution.StepIsColumns | liquidator/test.cpp:164-177 | a step is the sum of its four weighted, shifted column copies |
| Enumeration.ChoicesCount | liquidator/test.cpp:173 | there are 4^n windows of n columns |
| Enumeration.ChoicesLength | liquidator/test.cpp:168-173 | every listed window has n columns |
| Enumeration.ChoicesCover | liquidator/test.cpp:168-172 | every window of n columns is listed |
| Enumeration.ChoicesDistinct | liquidator/test.cpp:168-172 | no window is listed twice |
| Enumeration.ChoicesComplete | liquidator/test.cpp:168-173 | the windows listed are exactly those of n columns |
| Enumeration.TotalBounds | liquidator/test.cpp:168-176 | every window's total lies between the least and greatest totals |
| Enumeration.MassStep | liquidator/test.cpp:174-176 | the mass of total k with one more row adds one term per column of that row |
| Enumeration.Mass | liquidator/test.cpp:168-181 | definition: the background weight of all windows whose total is k; ProbIsMass and DistIsMass tie the distribution to it |
| Enumeration.ProbIsMass | liquidator/test.cpp:168-181 | the recurrence equals the weight of all windows scoring k |
| Enumeration.DistIsMass | liquidator/test.cpp:168-181 | the distribution entry at offset k - least is the background probability that a random window scores k |
| Enumeration.ZeroMinimumEntries | liquidator/test.cpp:174-181 | when the least total is 0 (as in every test), entry k is the probability of scoring k |
| DistributionMethod.ConvolveRow | liquidator/test.cpp:164-177 | fills a fresh array with one row's convolution of the distribution so far, and that array equals the row's Step |
| DistributionMethod.DistPrefix | liquidator/test.cpp:164-177 | adding a row adds one convolution step |
| DistributionMethod.ProbabilityDistribution | liquidator/test.cpp:133-181 | the row-by-row loop yields the distribution with one entry per reachable total; entry k - least is the probability of scoring k; it sums to 1 when the background does, and no entry is negative |
| LogOdds.ConvertRows | liquidator/test.cpp:62-65 | conversion keeps the number of rows |
| LogOdds.ConvertRowsAt | liquidator/test.cpp:70-77 | row i of the converted matrix is row i converted |
| LogOdds.CellsExtremes | liquidator/test.cpp:79-80 | the least and greatest cells bound every cell and both occur in the matrix |
| LogOdds.LogAdjustedLikelihoodRatio | liquidator/test.cpp:62-65 | the conversion keeps the name, the number of sites and the number of rows |
| LogOdds.ConvertedCell | liquidator/test.cpp:67-77 | a uniform row scores 0 for every base; otherwise a cell is log2 of its smoothed probability over its background frequency |
| LogOdds.ConversionExtremes | liquidator/test.cpp:79-80 | the returned pair bounds every converted cell and both ends occur, so it is valid input to scaling |
| LogOdds.AdjustedPositive | liquidator/test.cpp:67 | a smoothed probability is positive, so no logarithm is taken of zero |
| LogOdds.AdjustedSumsToOne | liquidator/test.cpp:67-68 | smoothing keeps a row summing to 1 summing to 1 |
| LogOdds.Adjusted | liquidator/test.cpp:67 | definition: the probability pooled over the observed sites and 0.1 pseudo-sites at the background frequency; AdjustedPositive and AdjustedSumsToOne state its properties |
| LogOdds.CellScore | liquidator/test.cpp:67-77 | definition: log2 of the smoothed probability over its background frequency; ConvertedCell states where it is used |
| LogOdds.ConvertRow | liquidator/test.cpp:67-77 | definition: a uniform row becomes zeros, any other row is converted cell by cell; ConvertedCell states it cell by cell |
| Numbers.ParseDecimal | liquidator/test.cpp:24-33 | a decimal literal reads as a non-negative number |
| Numbers.DecimalValue | liquidator/test.cpp:24-33 | digits, a point and digits read as the whole part plus the fraction |
| Numbers.NumeralDecimal | liquidator/test.cpp:47-51 | a plain numeral reads as its value |
| Numbers.ParseInt | bin/BAM2GFF_gtftogenes.py:26-27 | a string reads as an integer exactly when it is a numeral with an optional sign |
| Numbers.IntRoundTrip | bin/BAM2GFF_gtftogenes.py:55-60 | every integer written reads back as itself |
| Numbers.NatToStringValue | bin/BAM2GFF_gtftogenes.py:55-60 | a written natural number's digits have that value |
| MemeParser.ParseHeader | liquidator/test.cpp:23 | a header is accepted exactly when it is a letter-probability matrix line with alength 4 and numeric w and nsites fields, and then those fields give the width and the sites |
| MemeParser.ParseCells | liquidator/test.cpp:24-33 | a line of decimal tokens gives one cell per token |
| MemeParser.ParseCellsAt | liquidator/test.cpp:24-33 | cell a is the number written in token a |
| MemeParser.CellsAccept | liquidator/test.cpp:24-33 | the cells of a line are read exactly when every token is a decimal number |
| MemeParser.ParseRow | liquidator/test.cpp:44-45 | a row read has exactly four cells |
| MemeParser.RowAccept | liquidator/test.cpp:24-33 | a line is read as a row exactly when it holds four decimal numbers |
| MemeParser.RowCells | liquidator/test.cpp:47-51 | each cell of a row is the number written in its column |
| MemeParser.SkipBlank | liquidator/test.cpp:21-23 | blank lines are skipped up to the next non-blank line |
| MemeParser.ReadRows | liquidator/test.cpp:42-43 | reading w rows succeeds only with w lines in place and yields w rows |
| MemeParser.ReadRowsAt | liquidator/test.cpp:47-51 | row j - i read is the row written on line j, in file order |
| MemeParser.RowsAccept | liquidator/test.cpp:24-33 | w rows are read from line i exactly when the w lines from i are all there and each holds four decimal numbers |
| MemeParser.ReadMotif | liquidator/test.cpp:21-43 | a block gives the name after MOTIF and exactly w rows read from the lines after its header |
| MemeParser.MotifAccept | liquidator/test.cpp:21-33 | a block is read exactly when it is well formed (a name after MOTIF, a header after blank lines, then w row lines), and the read ends right after its last row |
| MemeParser.OneMotifPerBlock | liquidator/test.cpp:36-37 | a successful read yields one motif per MOTIF line |
| MemeParser.BlockHasNoMotifLine | liquidator/test.cpp:21-33 | no line inside a block opens another block |
| MemeParser.MotifRows | liquidator/test.cpp:42-51 | row r of a motif is the line r after the header |
| MemeParser.SingleBlock | liquidator/test.cpp:36-37 | a text whose only MOTIF line is at line i, with a well-formed block there, is read and yields exactly that block's motif |
| MemeParser.SingleMotif | liquidator/test.cpp:36-51 | such a text yields one motif named by the MOTIF line, with the header's width and sites, and cell a of row r is the number in column a of line r after the header |
| MemeParser.SkipTo | liquidator/test.cpp:12-20 | lines before the first block (the MEME preamble) contribute nothing |
| MemeParser.SkipToEnd | liquidator/test.cpp:12-20 | a tail without blocks yields no motifs |
| MemeParser.ReadFrom | liquidator/test.cpp:36-37 | definition: all blocks from line i in file order, failing at the first malformed one; OneMotifPerBlock, SingleBlock, SingleMotif, SkipTo and SkipToEnd state its properties |
| MemeParser.ReadPwm | liquidator/test.cpp:35-36 | definition: the text split into lines of whitespace-free tokens, then read from line 0; LiquidatorExamples.ReadPwmExample states the test's outcome on those lines |
| Text.Split | bin/BAM2GFF_gtftogenes.py:25 | a split yields at least one field and no field holds the separator |
| Text.JoinSplit | bin/BAM2GFF_gtftogenes.py:55-60 | joining the fields of a split rebuilds the string |
| Text.SplitJoin | bin/BAM2GFF_gtftogenes.py:55-60 | splitting a join of separator-free fields gives back the fields |
| Text.Tokens | liquidator/test.cpp:24-33 | tokens are non-empty and hold none of the characters stream extraction skips: space, tab, line feed, vertical tab, form feed, carriage return |
| Text.TokensJoin | liquidator/test.cpp:23 | non-empty whitespace-free tokens joined by spaces tokenise back to themselves |
| Text.AppendOne | bin/BAM2GFF_gtftogenes.py:105-107 | joining one more field adds a separator and that field |
| Text.SplitSuffix | bin/BAM2GFF_gtftogenes.py:89 | splitting a string followed by the separator and a separator-free field gives the string's fields and then that field |
| Text.LastField | bin/BAM2GFF_gtftogenes.py:89 | the last field of a split is a separator-free x exactly when the string is x or ends with the separator followed by x |
| GeneLocations.ParseGeneLocations | bin/BAM2GFF_gtftogenes.py:18-60 | the step-by-step computation, with its sequential clamps, gives exactly the pure result: the three records or the exception raised |
| GeneLocations.LocateSucceeds | bin/BAM2GFF_gtftogenes.py:25-53 | a record is processed if and only if it has a strand field, integer coordinates, strand + or -, and a chromosome of known size |
| GeneLocations.Locate | bin/BAM2GFF_gtftogenes.py:18-60 | definition: the three records for a gene line, or the exception the script raises; LocateSucceeds, LocatePlus and LocateMinus state what it yields |
| GeneLocations.LocatePlus | bin/BAM2GFF_gtftogenes.py:25-60 | for a + strand record with start s and end e, the promoter holds [max(1, s - flank), s + flank], upstream [max(1, s - flank), min(size, s - 1)] and downstream [max(1, e + 1), min(size, e + flank)], each keeping fields 0-2 and 5 onward |
| GeneLocations.LocateMinus | bin/BAM2GFF_gtftogenes.py:25-60 | for a - strand record, the promoter holds [max(1, e - flank), e + flank], upstream [max(1, e + 1), min(size, e + flank)] and downstream [max(1, s - flank), min(size, s - 1)], each keeping fields 0-2 and 5 onward |
| GeneLocations.UnclampedShape | bin/BAM2GFF_gtftogenes.py:28-41 | before clamping, the promoter spans 2 * flank + 1 positions centred on the start site, and upstream and downstream span flank positions each, abutting the gene on the strand's sides |
| GeneLocations.Unclamped | bin/BAM2GFF_gtftogenes.py:28-41 | definition: the three intervals for a strand before clamping; UnclampedShape and StrandMirror state their shape |
| GeneLocations.Clamp | bin/BAM2GFF_gtftogenes.py:43-53 | definition: the script's clamps in its order; ClampEffect states exactly which endpoints change |
| GeneLocations.StrandMirror | bin/BAM2GFF_gtftogenes.py:28-41 | the - strand's upstream is the + strand's downstream and vice versa |
| GeneLocations.ClampEffect | bin/BAM2GFF_gtftogenes.py:43-53 | every start becomes at least 1 and is kept if it already was; upstream and downstream ends become at most the chromosome size and are kept if they already were; the promoter end is never clamped |
| GeneLocations.UpstreamOfFirstPosition | bin/BAM2GFF_gtftogenes.py:29-32 | a + strand gene at position 1 gets the empty upstream interval [1, 0] |
| GeneLocations.IntToStringFree | bin/BAM2GFF_gtftogenes.py:55-60 | a written coordinate holds no tab |
| GeneLocations.JoinAppend | bin/BAM2GFF_gtftogenes.py:55-60 | joining two runs of fields with the separator between them joins their concatenation |
| GeneLocations.RecordFields | bin/BAM2GFF_gtftogenes.py:55-56 | an output line keeps fields 0-2 and 5 onward, holds the interval in fields 3 and 4, and those read back as the integers written |
| GeneLocations.WriteFields | bin/BAM2GFF_gtftogenes.py:55-60 | each of the three records keeps the other fields and holds its own interval |
| GeneRecords.FormatOf | bin/BAM2GFF_gtftogenes.py:89-98 | the file is read as GFF exactly when its path is gff or ends in .gff, and as GTF exactly when it is gtf or ends in .gtf |
| GeneRecords.GffRecord | bin/BAM2GFF_gtftogenes.py:95 | definition: the GFF gene record; GffRecordFields states its fields |
| GeneRecords.GtfRecord | bin/BAM2GFF_gtftogenes.py:104-107 | definition: the GTF gene record, or nothing when the attribute field has no second word; GtfRecordFields states its fields |
| GeneRecords.GtfGenes | bin/BAM2GFF_gtftogenes.py:100-109 | definition: the GTF records in file order; GtfGenesCount and GtfGenesFeature state their number and feature |
| GeneRecords.GffGenesAsWritten | bin/BAM2GFF_gtftogenes.py:91-97 | definition: the GFF loop with the script's indentation, where a comment line reuses the previous fields; CommentRepeatsRecord and LeadingComment state its two defects |
| GeneRecords.GffGenes | bin/BAM2GFF_gtftogenes.py:91-97 | definition: the GFF loop with comment lines skipped; GffGenesCount, GffGenesFeature and NoCommentsAgree state its properties |
| GeneRecords.Genes | bin/BAM2GFF_gtftogenes.py:89-109 | definition: the records of a file in the format its path selects |
| GeneRecords.RunOutcomes | bin/BAM2GFF_gtftogenes.py:95-97 | a run that writes each record and then processes it stops at the first failure: the records written are those up to and including it, every earlier record is processed, and the run is complete exactly when nothing fails |
| GeneRecords.RunRecords | bin/BAM2GFF_gtftogenes.py:95-97 | with parse_genelocations as the processing: the records written to genes.gff are those up to and including the first one Locate fails on (a contig missing from the sizes, say), each earlier record yields Locate's three records, and every record is written exactly when Locate accepts them all |
| GeneRecords.GffRecordFields | bin/BAM2GFF_gtftogenes.py:95 | a GFF gene record splits into chr plus field 0, followed by the other fields unchanged |
| GeneRecords.GtfRecordFields | bin/BAM2GFF_gtftogenes.py:104-107 | a GTF gene record splits into chr plus field 0, fields 1-7 unchanged, and the first two attribute words joined by = |
| GeneRecords.GtfGenesCount | bin/BAM2GFF_gtftogenes.py:100-109 | a GTF file gives one candidate record per non-comment line with the requested feature (RunRecords says how many of them a run writes) |
| GeneRecords.GtfGenesFeature | bin/BAM2GFF_gtftogenes.py:101-103 | every GTF record has nine fields and the requested feature in field 2 |
| GeneRecords.GffGenesCount | bin/BAM2GFF_gtftogenes.py:91-97 | with comments skipped, a GFF file gives one candidate record per non-comment line with the requested feature (RunRecords says how many of them a run writes) |
| GeneRecords.GffGenesFeature | bin/BAM2GFF_gtftogenes.py:94 | every GFF record has the requested feature in field 2 |
| GeneRecords.SplitKeepsFree | bin/BAM2GFF_gtftogenes.py:104 | splitting on spaces keeps fields free of tabs |
| GeneRecords.CommentRepeatsRecord | bin/BAM2GFF_gtftogenes.py:92-97 | as written, a comment after a matching record re-emits the record; with comments skipped it is emitted once |
| GeneRecords.LeadingComment | bin/BAM2GFF_gtftogenes.py:92-94 | as written, a comment before any record fails with no fields to test; with comments skipped nothing is emitted |
| GeneRecords.NoCommentsAgree | bin/BAM2GFF_gtftogenes.py:91-97 | without comment lines the as-written and the corrected GFF readings agree |

## Left out

- The liquidator headers and sources (`score_matrix.h`, `detail/score_matrix_detail.h` and their implementation) are not part of this model. The operations follow what the assertions of `liquidator/test.cpp` pin down; where a detail is left open there (the rounding used by scaling), one reasonable choice is fixed: ties go up.
- Floating point: all probabilities and scores are exact reals. `EXPECT_FLOAT_EQ` tolerance and `double` rounding are not modelled.
- `std::log2` is a parameter of the log-odds conversion. Only its use is modelled; no property of the logarithm beyond log(1) = 0 and monotonicity (in LiquidatorExamples.LogOddsExample) is assumed.
- LogOdds.LogAdjustedLikelihoodRatio: returns the converted matrix as a new value rather than changing the matrix in place; it requires a non-empty matrix, because the minimum and maximum of an empty matrix are not defined.
- MemeParser: reads the MEME text format as far as the test uses it. Numbers in scientific notation and negative numbers are not read; `E=` and other header fields besides `alength=`, `w=` and `nsites=` are ignored; the background frequency line is not parsed (the background is a parameter); the stream is taken as its whole text.
- The full-string window in the enumeration covers only strings of nucleotide letters; characters that score 0 (N, Z) are covered by Scorer.Cell and Scorer.ScoreBounds instead.
- The two-row distribution example is proved in two steps (FirstOfTwoRows, SecondOfTwoRows), then combined.
- LiquidatorExamples.ReadPwmExample: is stated on the token lines of the test text (LiquidatorExamples.TestLines) rather than on the literal text; that MemeParser.Lex splits the raw text into exactly those lines is not proved.
- Distribution.Dist: indexing the distribution from the least reachable total is this model's choice. Every matrix in the tests has least total 0, so the tests cannot tell it apart from indexing by absolute score; there entry k is the probability of score k (Enumeration.ZeroMinimumEntries), and in general entry i is the probability of total least + i (Enumeration.DistIsMass). A matrix scaled from its global minimum is only sure of a zero cell in the row holding that minimum, so its least total need not be 0.
- Scorer.ScoreSplit: a window's score splits over a point inside it only with the second part scored against the rows after those the first part used, because a window is always read from row 0 (the test at liquidator/test.cpp:126 scores "AA" from 1 against row 0); a split that re-bases the second part at row 0 does not hold.
- The script's file and console I/O are left out: opening, creating the `annotation` directory, writing `genes.gff`, `promoters.gff`, `upstream.gff` and `downstream.gff`, `print(options)` and `argparse`. Each output line is returned as a string instead, and the feature, the flank and the path are parameters (the `--feature` default `gene`, lines 68-69, is the caller's choice).
- Reading the chromosome-sizes file (lines 81-85) is left out: the sizes are given as a map to integers. The script keeps them as strings and compares `int(...)`. When it clamps it writes the size field's own text back, which may carry a sign, leading zeros, spaces or a carriage return that `int()` accepts; the model writes the plain numeral of the size instead.
- Numbers.ParseInt: models `int()` on plain signed numerals; Python's tolerance of surrounding whitespace and `_` digit separators is not modelled.
- GeneLocations.Locate: an unknown strand is an error value. In the script it surfaces as an unbound local name (`NameError`) at the first clamp.
- An interval the clamps leave inverted (such as [1, 0] upstream for a gene at position 1) is written as it is, as in the script (GeneLocations.UpstreamOfFirstPosition).
- GeneRecords.RunRecords: takes the records GeneRecords.Genes forms from the whole file. When a later line cannot form its record (Genes returns an error), the model reports only that error. The script has by then written and processed the records before that line, and it would have stopped first at any earlier record that Locate fails on.
- Score widths: the C++ tests hold cells and totals as 32-bit `unsigned`; ScoreRow cells and the totals are unbounded naturals here. Wrap-around would need a total above 2^32, which no distribution array the method could allocate reaches.

## Findings

| source | as written | input that shows it | evidently intended | confidence | as-written member | corrected member |
|---|---|---|---|---|---|---|
| bin/BAM2GFF_gtftogenes.py:92-94 | in the GFF branch only the split is guarded by `if not line.startswith('#')`; the feature test and the write run for every line, so a comment line re-tests the previous line's fields | a matching record followed by a `#` comment line gives that record twice; a file starting with a `#` line fails with an unbound `lines` | comment lines are skipped, as the GTF branch does at lines 101-103 | not executed | GeneRecords.GffGenesAsWritten (GeneRecords.CommentRepeatsRecord, GeneRecords.LeadingComment) | GeneRecords.GffGenes (GeneRecords.GffGenesCount, GeneRecords.GffGenesFeature) |
