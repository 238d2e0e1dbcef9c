/**
 * The flanking intervals of one gene record (`parse_genelocations`): from a
 * tab-separated GFF-style record (field 3 the gene start, field 4 its end,
 * field 6 its strand) and a flank distance, the promoter around the
 * transcription start site, the region upstream of the gene and the region
 * downstream of it. Some endpoints are then clamped to 1 and some to the
 * chromosome size, and each interval is written back into a copy of the
 * record in place of fields 3 and 4.
 */
module GeneLocations {
  import opened Wrappers
  import opened Text
  import opened Numbers

  datatype Strand = Plus | Minus

  /** A closed interval of chromosome positions, as written to a GFF record. */
  datatype Interval = Interval(start: int, end: int)

  /** The promoter, upstream and downstream intervals of a gene. */
  datatype Flanks = Flanks(promoter: Interval, upstream: Interval, downstream: Interval)

  /**
   * The intervals before clamping. On the + strand the gene is read from its
   * start: the promoter is centred on the start, upstream is the `flank`
   * positions before it and downstream the `flank` positions after the end.
   * On the - strand the same holds with the gene read from its end.
   */
  function Unclamped(strand: Strand, geneStart: int, geneEnd: int, flank: int): Flanks
  {
    match strand
    case Plus =>
      Flanks(Interval(geneStart - flank, geneStart + flank),
             Interval(geneStart - flank, geneStart - 1),
             Interval(geneEnd + 1, geneEnd + flank))
    case Minus =>
      Flanks(Interval(geneEnd - flank, geneEnd + flank),
             Interval(geneEnd + 1, geneEnd + flank),
             Interval(geneStart - flank, geneStart - 1))
  }

  function AtLeastOne(x: int): int
  {
    if x < 1 then 1 else x
  }

  function AtMost(x: int, size: int): int
  {
    if x > size then size else x
  }

  /**
   * The clamps: every start is raised to at least 1; the upstream and
   * downstream ends are capped at the chromosome size; the promoter end is
   * left as it is.
   */
  function Clamp(f: Flanks, size: int): Flanks
  {
    Flanks(Interval(AtLeastOne(f.promoter.start), f.promoter.end),
           Interval(AtLeastOne(f.upstream.start), AtMost(f.upstream.end, size)),
           Interval(AtLeastOne(f.downstream.start), AtMost(f.downstream.end, size)))
  }

  /** Why a record could not be processed (the exception Python raises). */
  datatype LocationError =
    | MissingField(index: nat)           // IndexError: the record has no field `index`
    | NotAnInteger(index: nat)           // ValueError: field `index` is not an integer
    | UnknownStrand(strand: string)      // UnboundLocalError: the strand is neither + nor -
    | UnknownChromosome(name: string)    // KeyError: no size is known for the chromosome

  /** The three records written to the promoter, upstream and downstream files. */
  datatype Locations = Locations(promoter: string, upstream: string, downstream: string)

  function ParseStrand(s: string): Option<Strand>
  {
    if s == "+" then Some(Plus) else if s == "-" then Some(Minus) else None
  }

  /** The record with fields 3 and 4 replaced by the interval, one line of a GFF file. */
  function Record(fields: seq<string>, iv: Interval): string
    requires |fields| >= 5
  {
    Join(fields[..3], '\t') + "\t" + IntToString(iv.start) + "\t" + IntToString(iv.end)
      + "\t" + Join(fields[5..], '\t') + "\n"
  }

  /** The three output records for the intervals `c`. */
  function Write(fields: seq<string>, c: Flanks): Locations
    requires |fields| >= 5
  {
    Locations(Record(fields, c.promoter), Record(fields, c.upstream), Record(fields, c.downstream))
  }

  /**
   * What processing `record` yields: the first failure in the order the
   * record is examined, or the three clamped intervals written into copies of
   * the record.
   */
  function Locate(chromSizes: map<string, int>, record: string, flank: int): Result<Locations, LocationError>
  {
    var f := Split(record, {'\t'});
    if |f| < 4 then Err(MissingField(3))
    else if ParseInt(f[3]).None? then Err(NotAnInteger(3))
    else if |f| < 5 then Err(MissingField(4))
    else if ParseInt(f[4]).None? then Err(NotAnInteger(4))
    else if |f| < 7 then Err(MissingField(6))
    else if ParseStrand(f[6]).None? then Err(UnknownStrand(f[6]))
    else if f[0] !in chromSizes then Err(UnknownChromosome(f[0]))
    else
      var c := Clamp(Unclamped(ParseStrand(f[6]).value, ParseInt(f[3]).value, ParseInt(f[4]).value, flank),
                     chromSizes[f[0]]);
      Ok(Write(f, c))
  }

  /**
   * `parse_genelocations`: splits the record, reads the gene start and end,
   * sets the six endpoints from the strand, clamps them one after the other
   * and formats the three output records.
   */
  method ParseGeneLocations(chromSizes: map<string, int>, record: string, flank: int)
    returns (r: Result<Locations, LocationError>)
    ensures r == Locate(chromSizes, record, flank)
  {
    var fields := Split(record, {'\t'});
    if |fields| < 4 {
      return Err(MissingField(3));
    }
    var parsedStart := ParseInt(fields[3]);
    if parsedStart.None? {
      return Err(NotAnInteger(3));
    }
    if |fields| < 5 {
      return Err(MissingField(4));
    }
    var parsedEnd := ParseInt(fields[4]);
    if parsedEnd.None? {
      return Err(NotAnInteger(4));
    }
    var geneStart, geneEnd := parsedStart.value, parsedEnd.value;
    if |fields| < 7 {
      return Err(MissingField(6));
    }
    var start, end, upstart, upend, downstart, downend;
    if fields[6] == "+" {
      end := geneStart + flank;
      start := geneStart - flank;
      upend := geneStart - 1;
      upstart := geneStart - flank;
      downstart := geneEnd + 1;
      downend := geneEnd + flank;
    } else if fields[6] == "-" {
      end := geneEnd + flank;
      start := geneEnd - flank;
      upend := geneEnd + flank;
      upstart := geneEnd + 1;
      downend := geneStart - 1;
      downstart := geneStart - flank;
    } else {
      return Err(UnknownStrand(fields[6]));
    }

    if downstart < 1 {
      downstart := 1;
    }
    if upstart < 1 {
      upstart := 1;
    }
    if start < 1 {
      start := 1;
    }

    if fields[0] !in chromSizes {
      return Err(UnknownChromosome(fields[0]));
    }
    var size := chromSizes[fields[0]];
    if upend > size {
      upend := size;
    }
    if downend > size {
      downend := size;
    }

    var c := Flanks(Interval(start, end), Interval(upstart, upend), Interval(downstart, downend));
    assert c == Clamp(Unclamped(ParseStrand(fields[6]).value, geneStart, geneEnd, flank), size);
    r := Ok(Write(fields, c));
  }

  /**
   * A record is processed exactly when it has a strand field, integer gene
   * coordinates, a + or - strand and a chromosome of known size.
   */
  lemma LocateSucceeds(chromSizes: map<string, int>, record: string, flank: int)
    ensures var f := Split(record, {'\t'});
      Locate(chromSizes, record, flank).Ok? <==>
        |f| >= 7 && ParseInt(f[3]).Some? && ParseInt(f[4]).Some?
        && (f[6] == "+" || f[6] == "-") && f[0] in chromSizes
  {
  }

  /** The number of positions of an interval. */
  function Length(iv: Interval): int
  {
    iv.end - iv.start + 1
  }

  /** The transcription start site: the gene start on +, its end on -. */
  function StartSite(strand: Strand, geneStart: int, geneEnd: int): int
  {
    if strand == Plus then geneStart else geneEnd
  }

  /**
   * Before clamping, the promoter spans `2 * flank + 1` positions centred on
   * the start site, and upstream and downstream span `flank` positions each,
   * abutting the gene: upstream ends just before the start site on + and
   * starts just after the gene end on -, and downstream the other way round.
   */
  lemma {:induction false} UnclampedShape(strand: Strand, geneStart: int, geneEnd: int, flank: int)
    ensures var u := Unclamped(strand, geneStart, geneEnd, flank);
      var tss := StartSite(strand, geneStart, geneEnd);
      u.promoter.start == tss - flank && u.promoter.end == tss + flank
      && Length(u.promoter) == 2 * flank + 1
      && Length(u.upstream) == flank && Length(u.downstream) == flank
      && (strand == Plus ==> u.upstream.end + 1 == geneStart && u.downstream.start == geneEnd + 1)
      && (strand == Minus ==> u.upstream.start == geneEnd + 1 && u.downstream.end + 1 == geneStart)
  {
  }

  /** The two strands mirror each other: the - strand's upstream is the + strand's downstream, and back. */
  lemma StrandMirror(geneStart: int, geneEnd: int, flank: int)
    ensures Unclamped(Minus, geneStart, geneEnd, flank).upstream == Unclamped(Plus, geneStart, geneEnd, flank).downstream
    ensures Unclamped(Minus, geneStart, geneEnd, flank).downstream == Unclamped(Plus, geneStart, geneEnd, flank).upstream
  {
  }

  /**
   * Which endpoints the clamps touch: each start becomes at least 1 and is
   * kept when it already is; the upstream and downstream ends become at most
   * the chromosome size and are kept when they already are; the promoter end
   * is always kept, even beyond the chromosome end.
   */
  lemma ClampEffect(f: Flanks, size: int)
    ensures var c := Clamp(f, size);
      c.promoter.start >= 1 && c.upstream.start >= 1 && c.downstream.start >= 1
      && (f.promoter.start >= 1 <==> c.promoter.start == f.promoter.start)
      && (f.upstream.start >= 1 <==> c.upstream.start == f.upstream.start)
      && (f.downstream.start >= 1 <==> c.downstream.start == f.downstream.start)
      && c.upstream.end <= size && c.downstream.end <= size
      && (f.upstream.end <= size <==> c.upstream.end == f.upstream.end)
      && (f.downstream.end <= size <==> c.downstream.end == f.downstream.end)
      && c.promoter.end == f.promoter.end
  {
  }

  /**
   * Clamping does not keep an interval non-empty: a + strand gene starting at
   * position 1 gets the upstream interval `[1, 0]`.
   */
  lemma UpstreamOfFirstPosition(geneEnd: int, flank: int, size: int)
    requires flank >= 1
    ensures Clamp(Unclamped(Plus, 1, geneEnd, flank), size).upstream.start == 1
    ensures Clamp(Unclamped(Plus, 1, geneEnd, flank), size).upstream.end == AtMost(0, size)
  {
  }

  /** A written integer has no tab in it. */
  lemma IntToStringFree(i: int)
    ensures Free(IntToString(i), {'\t'})
  {
    var s := IntToString(i);
    if i < 0 {
      assert s == "-" + NatToString(-i);
      forall k | 0 <= k < |s|
        ensures s[k] != '\t'
      {
        if k > 0 {
          assert s[k] == NatToString(-i)[k - 1];
        }
      }
    }
  }

  /** Joining two non-empty runs of fields with a separator between them joins their concatenation. */
  lemma {:induction false} JoinAppend(a: seq<string>, b: seq<string>, sep: char)
    requires |a| >= 1 && |b| >= 1
    ensures Join(a, sep) + [sep] + Join(b, sep) == Join(a + b, sep)
  {
    if |a| > 1 {
      JoinAppend(a[1..], b, sep);
      assert (a + b)[1..] == a[1..] + b;
    } else {
      assert (a + b)[1..] == b;
    }
  }

  /**
   * An output record keeps fields 0-2 and 5 onward of the input and holds
   * the interval in fields 3 and 4, where it reads back as the integers
   * written.
   */
  lemma RecordFields(fields: seq<string>, iv: Interval)
    requires |fields| >= 6
    requires forall k :: 0 <= k < |fields| ==> Free(fields[k], {'\t'})
    ensures var line := Record(fields, iv);
      var out := Split(line[..|line| - 1], {'\t'});
      out == fields[..3] + [IntToString(iv.start), IntToString(iv.end)] + fields[5..]
      && ParseInt(out[3]) == Some(iv.start) && ParseInt(out[4]) == Some(iv.end)
  {
    var s, e := IntToString(iv.start), IntToString(iv.end);
    var head, tail := fields[..3], fields[5..];
    var all := head + [s, e] + tail;
    var line := Record(fields, iv);
    JoinAppend([s], [e], '\t');
    JoinAppend([s, e], tail, '\t');
    JoinAppend(head, [s, e] + tail, '\t');
    assert head + ([s, e] + tail) == all;
    assert line[..|line| - 1] == Join(all, '\t');
    IntToStringFree(iv.start);
    IntToStringFree(iv.end);
    forall k | 0 <= k < |all|
      ensures Free(all[k], {'\t'})
    {
      if k >= 5 {
        assert all[k] == fields[k];
      }
    }
    SplitJoin(all, '\t');
    IntRoundTrip(iv.start);
    IntRoundTrip(iv.end);
  }

  /**
   * What a successful call writes: each of the three records is the input
   * record with fields 3 and 4 replaced by the clamped interval for the
   * record's strand, coordinates and chromosome size.
   */
  lemma LocateRecords(chromSizes: map<string, int>, record: string, flank: int)
    requires Locate(chromSizes, record, flank).Ok?
    ensures var f := Split(record, {'\t'});
      |f| >= 7
      && Locate(chromSizes, record, flank).value
         == Write(f, Clamp(Unclamped(ParseStrand(f[6]).value, ParseInt(f[3]).value, ParseInt(f[4]).value, flank),
                           chromSizes[f[0]]))
  {
  }

  /** Each record written keeps fields 0-2 and 5 onward and holds its interval in fields 3 and 4. */
  lemma WriteFields(fields: seq<string>, c: Flanks)
    requires |fields| >= 6
    requires forall k :: 0 <= k < |fields| ==> Free(fields[k], {'\t'})
    ensures var out := Write(fields, c);
      Split(out.promoter[..|out.promoter| - 1], {'\t'})
        == fields[..3] + [IntToString(c.promoter.start), IntToString(c.promoter.end)] + fields[5..]
      && Split(out.upstream[..|out.upstream| - 1], {'\t'})
        == fields[..3] + [IntToString(c.upstream.start), IntToString(c.upstream.end)] + fields[5..]
      && Split(out.downstream[..|out.downstream| - 1], {'\t'})
        == fields[..3] + [IntToString(c.downstream.start), IntToString(c.downstream.end)] + fields[5..]
  {
    RecordFields(fields, c.promoter);
    RecordFields(fields, c.upstream);
    RecordFields(fields, c.downstream);
  }

  /** The tab-separated fields of an output line, without its line break. */
  function OutputFields(line: string): seq<string>
  {
    Split(if |line| >= 1 && line[|line| - 1] == '\n' then line[..|line| - 1] else line, {'\t'})
  }

  /** An output line read back: the record's fields with the interval in fields 3 and 4. */
  lemma RecordOutput(fields: seq<string>, iv: Interval, line: string)
    requires |fields| >= 6 && forall k :: 0 <= k < |fields| ==> Free(fields[k], {'\t'})
    requires line == Record(fields, iv)
    ensures OutputFields(line) == fields[..3] + [IntToString(iv.start), IntToString(iv.end)] + fields[5..]
  {
    RecordFields(fields, iv);
  }

  /** The + strand intervals clamped and written, in closed form. */
  lemma WritePlus(f: seq<string>, s: int, e: int, flank: int, size: int, out: Locations)
    requires |f| >= 6 && forall k :: 0 <= k < |f| ==> Free(f[k], {'\t'})
    requires out == Write(f, Clamp(Unclamped(Plus, s, e, flank), size))
    ensures
      OutputFields(out.promoter)
        == f[..3] + [IntToString(if s - flank < 1 then 1 else s - flank), IntToString(s + flank)] + f[5..]
      && OutputFields(out.upstream)
        == f[..3] + [IntToString(if s - flank < 1 then 1 else s - flank),
                     IntToString(if s - 1 > size then size else s - 1)] + f[5..]
      && OutputFields(out.downstream)
        == f[..3] + [IntToString(if e + 1 < 1 then 1 else e + 1),
                     IntToString(if e + flank > size then size else e + flank)] + f[5..]
  {
    var c := Clamp(Unclamped(Plus, s, e, flank), size);
    assert c == Flanks(Interval(AtLeastOne(s - flank), s + flank), Interval(AtLeastOne(s - flank), AtMost(s - 1, size)),
                       Interval(AtLeastOne(e + 1), AtMost(e + flank, size)));
    RecordOutput(f, c.promoter, out.promoter);
    RecordOutput(f, c.upstream, out.upstream);
    RecordOutput(f, c.downstream, out.downstream);
  }

  /** The - strand intervals clamped and written, in closed form. */
  lemma WriteMinus(f: seq<string>, s: int, e: int, flank: int, size: int, out: Locations)
    requires |f| >= 6 && forall k :: 0 <= k < |f| ==> Free(f[k], {'\t'})
    requires out == Write(f, Clamp(Unclamped(Minus, s, e, flank), size))
    ensures
      OutputFields(out.promoter)
        == f[..3] + [IntToString(if e - flank < 1 then 1 else e - flank), IntToString(e + flank)] + f[5..]
      && OutputFields(out.upstream)
        == f[..3] + [IntToString(if e + 1 < 1 then 1 else e + 1),
                     IntToString(if e + flank > size then size else e + flank)] + f[5..]
      && OutputFields(out.downstream)
        == f[..3] + [IntToString(if s - flank < 1 then 1 else s - flank),
                     IntToString(if s - 1 > size then size else s - 1)] + f[5..]
  {
    var c := Clamp(Unclamped(Minus, s, e, flank), size);
    assert c == Flanks(Interval(AtLeastOne(e - flank), e + flank), Interval(AtLeastOne(e + 1), AtMost(e + flank, size)),
                       Interval(AtLeastOne(s - flank), AtMost(s - 1, size)));
    RecordOutput(f, c.promoter, out.promoter);
    RecordOutput(f, c.upstream, out.upstream);
    RecordOutput(f, c.downstream, out.downstream);
  }

  /**
   * A + strand record with integer coordinates `s` and `e` on a chromosome
   * of known size is processed, and in closed form: the promoter is
   * `[s - flank, s + flank]`, upstream `[s - flank, s - 1]` and downstream
   * `[e + 1, e + flank]`,
   * each start raised to 1 and the upstream and downstream ends capped at the
   * chromosome size; every other field of the record is kept.
   */
  lemma LocatePlus(chromSizes: map<string, int>, record: string, flank: int, s: int, e: int)
    requires var f := Split(record, {'\t'});
      |f| >= 7 && ParseInt(f[3]) == Some(s) && ParseInt(f[4]) == Some(e) && f[6] == "+" && f[0] in chromSizes
    ensures Locate(chromSizes, record, flank).Ok?
    ensures var f := Split(record, {'\t'});
      var size := chromSizes[f[0]];
      var out := Locate(chromSizes, record, flank).value;
      OutputFields(out.promoter)
        == f[..3] + [IntToString(if s - flank < 1 then 1 else s - flank), IntToString(s + flank)] + f[5..]
      && OutputFields(out.upstream)
        == f[..3] + [IntToString(if s - flank < 1 then 1 else s - flank),
                     IntToString(if s - 1 > size then size else s - 1)] + f[5..]
      && OutputFields(out.downstream)
        == f[..3] + [IntToString(if e + 1 < 1 then 1 else e + 1),
                     IntToString(if e + flank > size then size else e + flank)] + f[5..]
  {
    var f := Split(record, {'\t'});
    LocateRecords(chromSizes, record, flank);
    var size := chromSizes[f[0]];
    var out := Locate(chromSizes, record, flank).value;
    assert ParseStrand(f[6]).value == Plus;
    assert out == Write(f, Clamp(Unclamped(Plus, s, e, flank), size));
    WritePlus(f, s, e, flank, size, out);
  }

  /**
   * A - strand record with integer coordinates `s` and `e` on a chromosome
   * of known size is processed, and in closed form: the promoter is
   * `[e - flank, e + flank]`, upstream `[e + 1, e + flank]` and downstream
   * `[s - flank, s - 1]`,
   * each start raised to 1 and the upstream and downstream ends capped at the
   * chromosome size; every other field of the record is kept.
   */
  lemma LocateMinus(chromSizes: map<string, int>, record: string, flank: int, s: int, e: int)
    requires var f := Split(record, {'\t'});
      |f| >= 7 && ParseInt(f[3]) == Some(s) && ParseInt(f[4]) == Some(e) && f[6] == "-" && f[0] in chromSizes
    ensures Locate(chromSizes, record, flank).Ok?
    ensures var f := Split(record, {'\t'});
      var size := chromSizes[f[0]];
      var out := Locate(chromSizes, record, flank).value;
      OutputFields(out.promoter)
        == f[..3] + [IntToString(if e - flank < 1 then 1 else e - flank), IntToString(e + flank)] + f[5..]
      && OutputFields(out.upstream)
        == f[..3] + [IntToString(if e + 1 < 1 then 1 else e + 1),
                     IntToString(if e + flank > size then size else e + flank)] + f[5..]
      && OutputFields(out.downstream)
        == f[..3] + [IntToString(if s - flank < 1 then 1 else s - flank),
                     IntToString(if s - 1 > size then size else s - 1)] + f[5..]
  {
    var f := Split(record, {'\t'});
    LocateRecords(chromSizes, record, flank);
    var size := chromSizes[f[0]];
    var out := Locate(chromSizes, record, flank).value;
    assert ParseStrand(f[6]).value == Minus;
    assert out == Write(f, Clamp(Unclamped(Minus, s, e, flank), size));
    WriteMinus(f, s, e, flank, size, out);
  }
}
