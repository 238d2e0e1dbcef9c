/**
 * The per-line rewriting of an annotation file into the gene records of
 * `genes.gff`: only records whose feature (field 2) is the requested one are
 * kept, field 0 gets a `chr` prefix, and a GTF record's attribute column is
 * cut down to its first `key=value` pair. Lines are as read from the file,
 * with their line break.
 */
module GeneRecords {
  import opened Wrappers
  import opened Text
  import GeneLocations

  /** An annotation file format, chosen by the file name's extension. */
  datatype Format = Gff | Gtf

  /**
   * The text after the last `.` of the path chooses the format: a path that
   * is `gff` or ends in `.gff` is GFF, one that is `gtf` or ends in `.gtf` is
   * GTF, and any other path processes nothing.
   */
  function FormatOf(path: string): (r: Option<Format>)
    ensures r == Some(Gff) <==> path == "gff" || EndsWith(path, ".gff")
    ensures r == Some(Gtf) <==> path == "gtf" || EndsWith(path, ".gtf")
  {
    var parts := Split(path, {'.'});
    var ext := parts[|parts| - 1];
    ExtensionsFree();
    Extension(path, "gff", ".gff");
    Extension(path, "gtf", ".gtf");
    if ext == "gff" then Some(Gff) else if ext == "gtf" then Some(Gtf) else None
  }

  lemma ExtensionsFree()
    ensures Free("gff", {'.'}) && Free("gtf", {'.'})
    ensures ".gff" == ['.'] + "gff" && ".gtf" == ['.'] + "gtf"
  {
  }

  lemma Extension(path: string, ext: string, dotted: string)
    requires Free(ext, {'.'}) && dotted == ['.'] + ext
    ensures var parts := Split(path, {'.'});
      parts[|parts| - 1] == ext <==> path == ext || EndsWith(path, dotted)
  {
    LastField(path, '.', ext);
  }

  /** Why a line could not be processed (the exception Python raises). */
  datatype RecordError =
    | MissingField(line: nat)      // IndexError: too few tab-separated fields
    | MissingValue(line: nat)      // IndexError: the attribute column has no space-separated value
    | NoFieldsYet(line: nat)       // UnboundLocalError: a comment line before any record

  predicate IsComment(line: string)
  {
    |line| >= 1 && line[0] == '#'
  }

  /** A GFF gene record: `chr` before field 0, the other fields as they are. */
  function GffRecord(f: seq<string>): string
    requires |f| >= 1
  {
    "chr" + f[0] + "\t" + Join(f[1..], '\t')
  }

  /**
   * A GTF gene record: `chr` before field 0, fields 1-7 as they are, and in
   * place of the attributes their first two space-separated words joined by
   * `=`; None when the attributes have no second word.
   */
  function GtfRecord(f: seq<string>): Option<string>
    requires |f| >= 9
  {
    var attr := Split(f[8], {' '});
    if |attr| < 2 then None
    else Some("chr" + f[0] + "\t" + Join(f[1..8], '\t') + "\t" + attr[0] + "=" + attr[1])
  }

  /** The tab-separated fields of a line. */
  function Fields(line: string): seq<string>
  {
    Split(line, {'\t'})
  }

  /** A line that yields a record: not a comment, and the requested feature in field 2. */
  predicate Selected(line: string, feature: string)
  {
    !IsComment(line) && |Fields(line)| >= 3 && Fields(line)[2] == feature
  }

  /** The records of `genes.gff` from the lines of a GTF file, from line `i` on. */
  function GtfGenes(lines: seq<string>, feature: string, i: nat): Result<seq<string>, RecordError>
    requires i <= |lines|
    decreases |lines| - i
  {
    if i == |lines| then Ok([])
    else if IsComment(lines[i]) then GtfGenes(lines, feature, i + 1)
    else
      var f := Fields(lines[i]);
      if |f| < 3 then Err(MissingField(i))
      else if f[2] != feature then GtfGenes(lines, feature, i + 1)
      else if |f| < 9 then Err(MissingField(i))
      else
        match GtfRecord(f)
        case None => Err(MissingValue(i))
        case Some(rec) =>
          match GtfGenes(lines, feature, i + 1)
          case Err(e) => Err(e)
          case Ok(rest) => Ok([rec] + rest)
  }

  /**
   * The GFF branch as written: the feature test also runs for a comment
   * line, on the fields of the line before it, so the previous record is
   * emitted once more, and a comment before any record has no fields at all.
   * `prev` holds the fields of the last non-comment line.
   */
  function GffGenesAsWritten(lines: seq<string>, feature: string, i: nat, prev: Option<seq<string>>)
    : Result<seq<string>, RecordError>
    requires i <= |lines|
    decreases |lines| - i
  {
    if i == |lines| then Ok([])
    else
      var cur := if IsComment(lines[i]) then prev else Some(Fields(lines[i]));
      match cur
      case None => Err(NoFieldsYet(i))
      case Some(f) =>
        if |f| < 3 then Err(MissingField(i))
        else if f[2] != feature then GffGenesAsWritten(lines, feature, i + 1, cur)
        else
          match GffGenesAsWritten(lines, feature, i + 1, cur)
          case Err(e) => Err(e)
          case Ok(rest) => Ok([GffRecord(f)] + rest)
  }

  /** The GFF branch with comment lines skipped, as the GTF branch does. */
  function GffGenes(lines: seq<string>, feature: string, i: nat): Result<seq<string>, RecordError>
    requires i <= |lines|
    decreases |lines| - i
  {
    if i == |lines| then Ok([])
    else if IsComment(lines[i]) then GffGenes(lines, feature, i + 1)
    else
      var f := Fields(lines[i]);
      if |f| < 3 then Err(MissingField(i))
      else if f[2] != feature then GffGenes(lines, feature, i + 1)
      else
        match GffGenes(lines, feature, i + 1)
        case Err(e) => Err(e)
        case Ok(rest) => Ok([GffRecord(f)] + rest)
  }

  /** The records of `genes.gff` for a file of the given format. */
  function Genes(format: Format, lines: seq<string>, feature: string): Result<seq<string>, RecordError>
  {
    match format
    case Gff => GffGenes(lines, feature, 0)
    case Gtf => GtfGenes(lines, feature, 0)
  }

  /**
   * A run over the gene records: the records written to `genes.gff`, the
   * three flank records of each record processed, and the exception that
   * ended the run, if any.
   */
  datatype Run = Run(genes: seq<string>, flanks: seq<GeneLocations.Locations>, failure: Option<GeneLocations.LocationError>)

  /**
   * A run over records whose processing outcomes are `outcomes`, in order:
   * every record is written, then processed, and a failure ends the run.
   * The records written are those up to and including the first failure,
   * every record before it is processed, and the run is complete exactly
   * when no outcome is a failure.
   */
  function RunOutcomes(records: seq<string>, outcomes: seq<Result<GeneLocations.Locations, GeneLocations.LocationError>>): (r: Run)
    requires |outcomes| == |records|
    ensures |r.flanks| <= |r.genes| <= |records| && r.genes == records[..|r.genes|]
    ensures forall k :: 0 <= k < |r.flanks| ==> outcomes[k] == Ok(r.flanks[k])
    ensures r.failure == None <==> forall k :: 0 <= k < |records| ==> outcomes[k].Ok?
    ensures r.failure == None ==> |r.genes| == |r.flanks| == |records|
    ensures r.failure.Some? ==> |r.genes| == |r.flanks| + 1 && outcomes[|r.flanks|] == Err(r.failure.value)
  {
    if records == [] then Run([], [], None)
    else
      match outcomes[0]
      case Err(e) => Run([records[0]], [], Some(e))
      case Ok(l) =>
        var rest := RunOutcomes(records[1..], outcomes[1..]);
        assert forall k :: 1 <= k < |records| ==> records[k] == records[1..][k - 1] && outcomes[k] == outcomes[1..][k - 1];
        Run([records[0]] + rest.genes, [l] + rest.flanks, rest.failure)
  }

  /**
   * `main`'s loop: each record is written to `genes.gff` and then passed to
   * `parse_genelocations` before the next one, and an exception there ends
   * the run. The records written are those up to and including the first
   * one that fails, every record before it yields its three flank records,
   * and the run is complete exactly when every record is processed.
   */
  function RunRecords(chromSizes: map<string, int>, flank: int, records: seq<string>): (r: Run)
    ensures |r.flanks| <= |r.genes| <= |records| && r.genes == records[..|r.genes|]
    ensures forall k :: 0 <= k < |r.flanks| ==> GeneLocations.Locate(chromSizes, records[k], flank) == Ok(r.flanks[k])
    ensures r.failure == None <==> forall k :: 0 <= k < |records| ==> GeneLocations.Locate(chromSizes, records[k], flank).Ok?
    ensures r.failure == None ==> |r.genes| == |r.flanks| == |records|
    ensures r.failure.Some? ==>
      |r.genes| == |r.flanks| + 1 && GeneLocations.Locate(chromSizes, records[|r.flanks|], flank) == Err(r.failure.value)
  {
    RunOutcomes(records, seq(|records|, k requires 0 <= k < |records| => GeneLocations.Locate(chromSizes, records[k], flank)))
  }

  /** The number of lines from `i` on that yield a record. */
  function SelectedCount(lines: seq<string>, feature: string, i: nat): nat
    requires i <= |lines|
    decreases |lines| - i
  {
    if i == |lines| then 0
    else (if Selected(lines[i], feature) then 1 else 0) + SelectedCount(lines, feature, i + 1)
  }

  /** Every selected line of a GTF file gives exactly one record. */
  lemma {:induction false} GtfGenesCount(lines: seq<string>, feature: string, i: nat)
    requires i <= |lines| && GtfGenes(lines, feature, i).Ok?
    ensures |GtfGenes(lines, feature, i).value| == SelectedCount(lines, feature, i)
    decreases |lines| - i
  {
    if i < |lines| {
      GtfGenesCount(lines, feature, i + 1);
    }
  }

  /** Every selected line of a GFF file gives exactly one record. */
  lemma {:induction false} GffGenesCount(lines: seq<string>, feature: string, i: nat)
    requires i <= |lines| && GffGenes(lines, feature, i).Ok?
    ensures |GffGenes(lines, feature, i).value| == SelectedCount(lines, feature, i)
    decreases |lines| - i
  {
    if i < |lines| {
      GffGenesCount(lines, feature, i + 1);
    }
  }

  /** Every record a GTF file gives has the requested feature in field 2. */
  lemma {:induction false} GtfGenesFeature(lines: seq<string>, feature: string, i: nat, k: nat)
    requires i <= |lines| && GtfGenes(lines, feature, i).Ok? && k < |GtfGenes(lines, feature, i).value|
    ensures |Fields(GtfGenes(lines, feature, i).value[k])| == 9
    ensures Fields(GtfGenes(lines, feature, i).value[k])[2] == feature
    decreases |lines| - i
  {
    var f := Fields(lines[i]);
    if IsComment(lines[i]) || f[2] != feature {
      GtfGenesFeature(lines, feature, i + 1, k);
    } else if k > 0 {
      GtfGenesFeature(lines, feature, i + 1, k - 1);
    } else {
      GtfRecordFields(f);
    }
  }

  /** Every record a GFF file gives has the requested feature in field 2. */
  lemma {:induction false} GffGenesFeature(lines: seq<string>, feature: string, i: nat, k: nat)
    requires i <= |lines| && GffGenes(lines, feature, i).Ok? && k < |GffGenes(lines, feature, i).value|
    ensures |Fields(GffGenes(lines, feature, i).value[k])| >= 3
    ensures Fields(GffGenes(lines, feature, i).value[k])[2] == feature
    decreases |lines| - i
  {
    var f := Fields(lines[i]);
    if IsComment(lines[i]) || f[2] != feature {
      GffGenesFeature(lines, feature, i + 1, k);
    } else if k > 0 {
      GffGenesFeature(lines, feature, i + 1, k - 1);
    } else {
      GffRecordFields(f);
    }
  }

  /** The fields of a split that has no `c` anywhere have no `c` either. */
  lemma {:induction false} SplitKeepsFree(s: string, seps: set<char>, c: char)
    requires Free(s, {c})
    ensures forall k :: 0 <= k < |Split(s, seps)| ==> Free(Split(s, seps)[k], {c})
  {
    if s != [] {
      assert Free(s[1..], {c});
      SplitKeepsFree(s[1..], seps, c);
    }
  }

  /** A GFF gene record splits into field 0 with `chr` before it and the other fields unchanged. */
  lemma GffRecordFields(f: seq<string>)
    requires |f| >= 2
    requires forall k :: 0 <= k < |f| ==> Free(f[k], {'\t'})
    ensures Split(GffRecord(f), {'\t'}) == ["chr" + f[0]] + f[1..]
  {
    var all := ["chr" + f[0]] + f[1..];
    assert all[1..] == f[1..];
    assert Join(all, '\t') == GffRecord(f);
    assert Free("chr" + f[0], {'\t'}) by {
      assert forall k :: 3 <= k < |"chr" + f[0]| ==> ("chr" + f[0])[k] == f[0][k - 3];
    }
    forall k | 0 <= k < |all|
      ensures Free(all[k], {'\t'})
    {
      if k > 0 {
        assert all[k] == f[k];
      }
    }
    SplitJoin(all, '\t');
  }

  /**
   * A GTF gene record splits into nine fields: field 0 with `chr` before it,
   * fields 1-7 unchanged, and the first two words of the attributes joined by
   * `=`.
   */
  lemma GtfRecordFields(f: seq<string>)
    requires |f| >= 9 && GtfRecord(f).Some?
    requires forall k :: 0 <= k < |f| ==> Free(f[k], {'\t'})
    ensures var attr := Split(f[8], {' '});
      Split(GtfRecord(f).value, {'\t'}) == ["chr" + f[0]] + f[1..8] + [attr[0] + "=" + attr[1]]
  {
    var attr := Split(f[8], {' '});
    var pair := attr[0] + "=" + attr[1];
    var middle := f[1..8];
    var all := ["chr" + f[0]] + middle + [pair];
    SplitKeepsFree(f[8], {' '}, '\t');
    assert Free(pair, {'\t'}) by {
      assert forall k :: 0 <= k < |attr[0]| ==> pair[k] == attr[0][k];
      assert forall k :: |attr[0]| + 1 <= k < |pair| ==> pair[k] == attr[1][k - |attr[0]| - 1];
    }
    assert Free("chr" + f[0], {'\t'}) by {
      assert forall k :: 3 <= k < |"chr" + f[0]| ==> ("chr" + f[0])[k] == f[0][k - 3];
    }
    AppendOne(middle, pair, '\t');
    assert all[1..] == middle + [pair];
    assert Join(all, '\t') == GtfRecord(f).value;
    forall k | 0 <= k < |all|
      ensures Free(all[k], {'\t'})
    {
      if 1 <= k < 8 {
        assert all[k] == f[k];
      }
    }
    SplitJoin(all, '\t');
  }

  /**
   * The GFF comment-line discrepancy. A matching record followed by a comment
   * line: as written, the record is emitted twice; with comments skipped,
   * once.
   */
  lemma CommentRepeatsRecord(record: string, comment: string, feature: string)
    requires Selected(record, feature) && IsComment(comment)
    ensures GffGenesAsWritten([record, comment], feature, 0, None)
         == Ok([GffRecord(Fields(record)), GffRecord(Fields(record))])
    ensures GffGenes([record, comment], feature, 0) == Ok([GffRecord(Fields(record))])
  {
    var lines := [record, comment];
    var f := Fields(record);
    assert [GffRecord(f)] + [] == [GffRecord(f)];
    assert GffGenesAsWritten(lines, feature, 2, Some(f)) == Ok([]);
    assert GffGenesAsWritten(lines, feature, 1, Some(f)) == Ok([GffRecord(f)]);
    assert GffGenes(lines, feature, 2) == Ok([]);
    assert GffGenes(lines, feature, 1) == Ok([]);
    assert !IsComment(lines[0]) && Fields(lines[0]) == f;
    assert GffGenesAsWritten(lines, feature, 0, None) == Ok([GffRecord(f)] + [GffRecord(f)]);
    assert [GffRecord(f)] + [GffRecord(f)] == [GffRecord(f), GffRecord(f)];
  }

  /** A comment line before any record: as written the branch fails, with comments skipped it yields nothing. */
  lemma LeadingComment(comment: string, feature: string)
    requires IsComment(comment)
    ensures GffGenesAsWritten([comment], feature, 0, None) == Err(NoFieldsYet(0))
    ensures GffGenes([comment], feature, 0) == Ok([])
  {
  }

  /** Without comment lines the two GFF readings agree. */
  lemma {:induction false} NoCommentsAgree(lines: seq<string>, feature: string, i: nat, prev: Option<seq<string>>)
    requires i <= |lines|
    requires forall j :: i <= j < |lines| ==> !IsComment(lines[j])
    ensures GffGenesAsWritten(lines, feature, i, prev) == GffGenes(lines, feature, i)
    decreases |lines| - i
  {
    if i < |lines| {
      NoCommentsAgree(lines, feature, i + 1, Some(Fields(lines[i])));
    }
  }
}
