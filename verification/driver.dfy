/**
  The outer loop over input files. Both versions of the script run the same
  per-file aggregation. In the modelled core they differ only in where a
  file's reporting period comes from: the newer one slices it out of the
  file name, the older one reads the MONTH and YEAR columns of the file's
  first record. (The older one also runs under Python 2, whose integer
  division is not modelled.)

  The four outputs of a run are the per-file outputs concatenated in file
  order, and the run counters report the totals of what was read and
  written.
 */
module Driver {
  import opened Geo
  import opened Metrics
  import opened Grouping
  import opened Aggregator
  import opened Outputs

  /** Where a file's reporting period is taken from. */
  datatype PeriodSource =
    | FromFileName      // `myFile[-21:-19] + "/" + myFile[-26:-22]`
    | FromFirstRecord   // first record's MONTH + "/" + YEAR

  /** One input file: its name and its tract records, in file order. */
  datatype InputFile = InputFile(name: string, recs: seq<Record>)

  /** Every file has at least one record. */
  ghost predicate AllNonEmpty(files: seq<InputFile>) {
    forall k :: 0 <= k < |files| ==> |files[k].recs| > 0
  }

  /** The reporting period written on every row of a file. Files are never
      empty when it is asked for; an empty file would have no first record,
      and gets the empty period. */
  function FilePeriod(src: PeriodSource, f: InputFile): string {
    match src
    case FromFileName => FileNamePeriod(f.name)
    case FromFirstRecord => if |f.recs| == 0 then "" else f.recs[0].month + "/" + f.recs[0].year
  }

  /** The period derivation of one version of the script, as a function. */
  function PeriodOf(src: PeriodSource): InputFile -> string {
    f => FilePeriod(src, f)
  }

  /** Nothing written yet. */
  const NoOutput: Output := Output([], [], [], [])

  /** Appends the rows of b to the rows of a, stream by stream. */
  function Concat(a: Output, b: Output): Output {
    Output(a.tract + b.tract, a.county + b.county, a.state + b.state, a.national + b.national)
  }

  /** What a run over `files` writes when each file's period is derived by
      `period`: each file's output, in file order. */
  function RunSpec(period: InputFile -> string, files: seq<InputFile>): Output
    requires AllNonEmpty(files)
  {
    if |files| == 0 then NoOutput
    else
      var f := Last(files);
      Concat(RunSpec(period, files[..|files| - 1]), FileSpec(period(f), f.recs))
  }

  /** The number of records over all files. */
  function TotalRecords(files: seq<InputFile>): nat {
    if |files| == 0 then 0 else TotalRecords(files[..|files| - 1]) + |Last(files).recs|
  }

  lemma RunSpecSnoc(period: InputFile -> string, files: seq<InputFile>, k: nat)
    requires AllNonEmpty(files) && k < |files|
    ensures RunSpec(period, files[..k + 1])
         == Concat(RunSpec(period, files[..k]), FileSpec(period(files[k]), files[k].recs))
    ensures TotalRecords(files[..k + 1]) == TotalRecords(files[..k]) + |files[k].recs|
  {
    assert files[..k + 1][..k] == files[..k];
  }

  /** The loop over files: every file through the per-file loop, with the
      three accumulators carried from file to file. They are reset when the
      run starts and by every file's end-of-file block, so each file starts
      from reset accumulators and nothing leaks from one file into the
      next. The counters end up as the number of records read (`all` and
      `tract`), the number of files (`national`), and the number of rows
      written at the state and county levels. */
  method RunFiles(period: InputFile -> string, files: seq<InputFile>) returns (out: Output, counters: Counters)
    requires AllNonEmpty(files)
    ensures out == RunSpec(period, files)
    ensures counters.all == counters.tract == TotalRecords(files)
    ensures counters.national == |files|
    ensures counters.state == |out.state| && counters.county == |out.county|
  {
    out := NoOutput;
    counters := Counters(0, 0, 0, 0, 0);
    var accs := Fresh;
    var k: nat := 0;
    while k < |files|
      invariant k <= |files|
      invariant accs == Fresh
      invariant out == RunSpec(period, files[..k])
      invariant counters == Counters(TotalRecords(files[..k]), k, |out.state|, |out.county|,
                                     TotalRecords(files[..k]))
    {
      out, accs, counters := NextFile(period, files, k, out, accs, counters);
      k := k + 1;
    }
    assert files[..|files|] == files;
  }

  /** The file loop's body for file k: the file through the per-file loop,
      its rows appended to the outputs. */
  method NextFile(period: InputFile -> string, files: seq<InputFile>, k: nat,
                  out: Output, accs: Accs, counters: Counters)
    returns (out': Output, accs': Accs, counters': Counters)
    requires AllNonEmpty(files) && k < |files|
    requires accs == Fresh
    requires out == RunSpec(period, files[..k])
    requires counters == Counters(TotalRecords(files[..k]), k, |out.state|, |out.county|,
                                  TotalRecords(files[..k]))
    ensures accs' == Fresh
    ensures out' == RunSpec(period, files[..k + 1])
    ensures counters' == Counters(TotalRecords(files[..k + 1]), k + 1, |out'.state|, |out'.county|,
                                  TotalRecords(files[..k + 1]))
  {
    var f := files[k];
    var fileOut;
    fileOut, accs', counters' := ProcessFile(period(f), f.recs, accs, counters);
    RunSpecSnoc(period, files, k);
    out' := Concat(out, fileOut);
  }

  /** A run of one version of the script: its period derivation applied to
      every file. */
  method Run(src: PeriodSource, files: seq<InputFile>) returns (out: Output, counters: Counters)
    requires AllNonEmpty(files)
    ensures out == RunSpec(PeriodOf(src), files)
    ensures counters.all == counters.tract == TotalRecords(files)
    ensures counters.national == |files|
    ensures counters.state == |out.state| && counters.county == |out.county|
  {
    out, counters := RunFiles(PeriodOf(src), files);
  }

  /** The national output has exactly one row per file, in file order, and
      the k-th row rolls up the k-th file alone: its period, the invented
      GEOID, the sums over that file's records and the mean of their
      AVG_VAC_R. */
  lemma {:induction false} NationalRowPerFile(period: InputFile -> string, files: seq<InputFile>)
    requires AllNonEmpty(files)
    ensures var national := RunSpec(period, files).national;
      && |national| == |files|
      && forall k :: 0 <= k < |files| ==>
           national[k] == Row(period(files[k]), NationalId, TotalCounts(files[k].recs),
                              AvgTotal(files[k].recs) / (|files[k].recs| as real))
  {
    if |files| > 0 {
      var m := |files| - 1;
      var front := files[..m];
      assert AllNonEmpty(front) by {
        forall k | 0 <= k < |front| ensures |front[k].recs| > 0 {
          assert front[k] == files[k];
        }
      }
      NationalRowPerFile(period, front);
      var last := FileSpec(period(files[m]), files[m].recs);
      assert RunSpec(period, files).national == RunSpec(period, front).national + last.national;
      NationalRow(period(files[m]), files[m].recs);
      var national := RunSpec(period, files).national;
      forall k | 0 <= k < |files|
        ensures national[k] == Row(period(files[k]), NationalId, TotalCounts(files[k].recs),
                                   AvgTotal(files[k].recs) / (|files[k].recs| as real))
      {
        var f := files[k];
        if k < m {
          assert front[k] == f;
          assert national[k] == RunSpec(period, front).national[k];
          assert RunSpec(period, front).national[k]
              == Row(period(f), NationalId, TotalCounts(f.recs), AvgTotal(f.recs) / (|f.recs| as real));
        } else {
          assert national[k] == last.national[0];
          assert last.national[0]
              == Row(period(f), NationalId, TotalCounts(f.recs), AvgTotal(f.recs) / (|f.recs| as real));
        }
      }
    }
  }

  /** The tract output of a run has exactly one row per record read. */
  lemma {:induction false} TractRowPerRecord(period: InputFile -> string, files: seq<InputFile>)
    requires AllNonEmpty(files)
    ensures |RunSpec(period, files).tract| == TotalRecords(files)
  {
    if |files| > 0 {
      var m := |files| - 1;
      var front := files[..m];
      assert AllNonEmpty(front) by {
        forall k | 0 <= k < |front| ensures |front[k].recs| > 0 {
          assert front[k] == files[k];
        }
      }
      TractRowPerRecord(period, front);
    }
  }

  /** With the period read from the first record, every row written for a
      file carries that record's MONTH and YEAR, whatever later records
      hold. */
  lemma FirstRecordPeriod(f: InputFile)
    requires |f.recs| > 0
    ensures var period := f.recs[0].month + "/" + f.recs[0].year;
      var out := FileSpec(FilePeriod(FromFirstRecord, f), f.recs);
      && (forall j :: 0 <= j < |out.tract| ==> out.tract[j].period == period)
      && (forall j :: 0 <= j < |out.county| ==> out.county[j].period == period)
      && (forall j :: 0 <= j < |out.state| ==> out.state[j].period == period)
      && (forall j :: 0 <= j < |out.national| ==> out.national[j].period == period)
  {
    RowsCarryPeriod(FilePeriod(FromFirstRecord, f), f.recs);
  }

  /** With the period read from the file name, a name ending in
      `<yyyy><c><mm>` followed by 19 characters (such as the `.dbf` names
      the script globs for) yields `mm/yyyy`, whatever the records hold. */
  lemma FileNamePeriodOfFile(head: string, year: string, sep: char, month: string, tail: string,
                             recs: seq<Record>)
    requires |year| == 4 && |month| == 2 && |tail| == 19 && |recs| > 0
    ensures FilePeriod(FromFileName, InputFile(head + year + [sep] + month + tail, recs)) == month + "/" + year
  {
    FileNamePeriodOfLayout(head, year, sep, month, tail);
  }
}
