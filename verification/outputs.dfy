/**
  What one file's four outputs contain, stated row by row against the
  records: tract rows pass the records through, every county and state row
  is the roll-up of one maximal run of equal prefix, the national row rolls
  up the whole file, and the three aggregate levels agree on the totals.
 */
module Outputs {
  import opened Geo
  import opened Metrics
  import opened Grouping
  import opened Aggregator

  lemma {:induction false} TractRowsIndex(period: string, recs: seq<Record>, n: nat, j: nat)
    requires j < n <= |recs|
    ensures TractRows(period, recs, n)[j] == TractRow(period, recs[j])
  {
    if j < n - 1 {
      TractRowsIndex(period, recs, n - 1, j);
    }
  }

  /** Exactly one tract row per record, in input order, carrying the file's
      period, the record's GEOID and its nine metrics unchanged. */
  lemma TractPassthrough(period: string, recs: seq<Record>)
    requires |recs| > 0
    ensures var out := FileSpec(period, recs);
      && |out.tract| == |recs|
      && forall j :: 0 <= j < |recs| ==>
           out.tract[j] == Row(period, recs[j].geoId, recs[j].counts, recs[j].avgDaysVacant)
  {
    forall j | 0 <= j < |recs|
      ensures TractRows(period, recs, |recs|)[j] == TractRow(period, recs[j])
    {
      TractRowsIndex(period, recs, |recs|, j);
    }
  }

  /** The tract line written for record j lists, in column order, the
      period, the record's GEOID, AMS_RES, RES_VAC, AVG_VAC_R and the six
      vacancy-duration counts, each as read. */
  lemma TractLines(period: string, recs: seq<Record>)
    requires |recs| > 0
    ensures var out := FileSpec(period, recs);
      && |out.tract| == |recs|
      && forall j :: 0 <= j < |recs| ==>
           var c := recs[j].counts;
           Cells(out.tract[j])
             == [Text(period), Text(recs[j].geoId),
                 Count(c.activeResidential), Count(c.residentialVacant),
                 Ratio(recs[j].avgDaysVacant),
                 Count(c.vacant0to3), Count(c.vacant3to6), Count(c.vacant6to12),
                 Count(c.vacant12to24), Count(c.vacant24to36), Count(c.vacant36plus)]
  {
    TractPassthrough(period, recs);
  }

  /** The county output: the records cut into maximal runs of equal
      `GEOID[0:5]`, and for each run in order one row tagged with the run's
      county prefix, carrying the sums over exactly the run's records and
      the mean of their AVG_VAC_R. */
  lemma CountyRows(period: string, recs: seq<Record>)
    requires |recs| > 0
    ensures var out := FileSpec(period, recs); var runs := Runs(recs, CountyKey);
      && IsRunPartition(runs, recs, CountyKey)
      && |out.county| == |runs|
      && forall j :: 0 <= j < |runs| ==>
           out.county[j] == Row(period, CountyOf(runs[j][0].geoId), TotalCounts(runs[j]),
                                AvgTotal(runs[j]) / (|runs[j]| as real))
  {
    RowsOfRuns(recs, CountyKey, period);
  }

  /** The state output, likewise for maximal runs of equal `GEOID[0:2]`. */
  lemma StateRows(period: string, recs: seq<Record>)
    requires |recs| > 0
    ensures var out := FileSpec(period, recs); var runs := Runs(recs, StateKey);
      && IsRunPartition(runs, recs, StateKey)
      && |out.state| == |runs|
      && forall j :: 0 <= j < |runs| ==>
           out.state[j] == Row(period, StateOf(runs[j][0].geoId), TotalCounts(runs[j]),
                               AvgTotal(runs[j]) / (|runs[j]| as real))
  {
    RowsOfRuns(recs, StateKey, period);
  }

  /** Exactly one national row per file, under the invented GEOID, with the
      sums over every record of the file and the mean of their AVG_VAC_R. */
  lemma NationalRow(period: string, recs: seq<Record>)
    requires |recs| > 0
    ensures FileSpec(period, recs).national
         == [Row(period, NationalId, TotalCounts(recs), AvgTotal(recs) / (|recs| as real))]
  {
    GroupRow(recs, period, NationalId);
  }

  /** The one national line of a file lists, in column order, the period,
      the invented GEOID "01", the file's totals of AMS_RES and RES_VAC, the
      mean AVG_VAC_R, and the totals of the six vacancy-duration counts. */
  lemma NationalLine(period: string, recs: seq<Record>)
    requires |recs| > 0
    ensures var out := FileSpec(period, recs); var t := TotalCounts(recs);
      && |out.national| == 1
      && Cells(out.national[0])
           == [Text(period), Text("01"),
               Count(t.activeResidential), Count(t.residentialVacant),
               Ratio(AvgTotal(recs) / (|recs| as real)),
               Count(t.vacant0to3), Count(t.vacant3to6), Count(t.vacant6to12),
               Count(t.vacant12to24), Count(t.vacant24to36), Count(t.vacant36plus)]
  {
    NationalRow(period, recs);
  }

  /** The county rows, the state rows and the national row of one file add up
      to the same totals for every count metric: the file's totals. */
  lemma TotalsAgree(period: string, recs: seq<Record>)
    requires |recs| > 0
    ensures var out := FileSpec(period, recs);
      && SumRows(out.county) == TotalCounts(recs)
      && SumRows(out.state) == TotalCounts(recs)
      && SumRows(out.national) == TotalCounts(recs)
  {
    var out := FileSpec(period, recs);
    RowsConserveTotals(recs, CountyKey, period);
    RowsConserveTotals(recs, StateKey, period);
    NationalRow(period, recs);
    SumOneRow(out.national[0]);
  }

  lemma SumOneRow(row: Row)
    ensures SumRows([row]) == row.counts
  {
    assert [row][..0] == [];
  }

  /** Each level writes one row more than the number of key changes between
      neighbouring records; since a state change is always a county change,
      there are never more state rows than county rows. */
  lemma {:induction false} RowCounts(period: string, recs: seq<Record>)
    requires |recs| > 0
    ensures var out := FileSpec(period, recs);
      && |out.county| == Breaks(recs, CountyKey) + 1
      && |out.state| == Breaks(recs, StateKey) + 1
      && 1 <= |out.state| <= |out.county| <= |recs|
      && |out.national| == 1
  {
    RunCount(recs, CountyKey);
    RunCount(recs, StateKey);
    StateCoarserThanCounty();
    FewerCoarseRuns(recs, StateKey, CountyKey);
  }

  /** When every county's records are contiguous in the file, the county
      output has one row per county present: the rows' GEOIDs are exactly the
      county prefixes of the records, no two rows share one, and each row
      carries the sums over every record of its county and the mean of their
      AVG_VAC_R. */
  lemma ContiguousCountiesOneRowEach(period: string, recs: seq<Record>)
    requires |recs| > 0
    requires Contiguous(recs, CountyKey)
    ensures var out := FileSpec(period, recs);
      && |out.county| == |RecordKeys(recs, CountyKey)|
      && (set j | 0 <= j < |out.county| :: out.county[j].geoId) == RecordKeys(recs, CountyKey)
      && (forall a, b :: 0 <= a < b < |out.county| ==> out.county[a].geoId != out.county[b].geoId)
      && forall j :: 0 <= j < |out.county| ==>
           var sel := Filter(recs, CountyKey, out.county[j].geoId);
           && |sel| > 0
           && out.county[j].counts == TotalCounts(sel)
           && out.county[j].avgDaysVacant == AvgTotal(sel) / (|sel| as real)
  {
    ContiguousRowKeys(recs, CountyKey, period);
    ContiguousRowSums(recs, CountyKey, period);
  }

  /** The same for states. */
  lemma ContiguousStatesOneRowEach(period: string, recs: seq<Record>)
    requires |recs| > 0
    requires Contiguous(recs, StateKey)
    ensures var out := FileSpec(period, recs);
      && |out.state| == |RecordKeys(recs, StateKey)|
      && (set j | 0 <= j < |out.state| :: out.state[j].geoId) == RecordKeys(recs, StateKey)
      && (forall a, b :: 0 <= a < b < |out.state| ==> out.state[a].geoId != out.state[b].geoId)
      && forall j :: 0 <= j < |out.state| ==>
           var sel := Filter(recs, StateKey, out.state[j].geoId);
           && |sel| > 0
           && out.state[j].counts == TotalCounts(sel)
           && out.state[j].avgDaysVacant == AvgTotal(sel) / (|sel| as real)
  {
    ContiguousRowKeys(recs, StateKey, period);
    ContiguousRowSums(recs, StateKey, period);
  }

  /** Every row of every output carries the period it was written with. */
  lemma RowsCarryPeriod(period: string, recs: seq<Record>)
    requires |recs| > 0
    ensures var out := FileSpec(period, recs);
      && (forall j :: 0 <= j < |out.tract| ==> out.tract[j].period == period)
      && (forall j :: 0 <= j < |out.county| ==> out.county[j].period == period)
      && (forall j :: 0 <= j < |out.state| ==> out.state[j].period == period)
      && (forall j :: 0 <= j < |out.national| ==> out.national[j].period == period)
  {
    TractPassthrough(period, recs);
    CountyRows(period, recs);
    StateRows(period, recs);
  }

  /** Sortedness is never checked: a county whose tracts are interrupted by
      another county's is written twice, once per run. */
  lemma InterleavedCountyWrittenTwice(c: Counts, v: real)
    ensures var recs := [Record("01001000100", "03", "2015", c, v),
                         Record("01003000100", "03", "2015", c, v),
                         Record("01001000200", "03", "2015", c, v)];
      var out := FileSpec("03/2015", recs);
      && |out.county| == 3
      && out.county[0].geoId == out.county[2].geoId == "01001"
      && out.county[1].geoId == "01003"
  {
    var r0 := Record("01001000100", "03", "2015", c, v);
    var r1 := Record("01003000100", "03", "2015", c, v);
    var r2 := Record("01001000200", "03", "2015", c, v);
    assert CountyKey(r0) == "01001" by { assert "01001000100"[..5] == "01001"; }
    assert CountyKey(r1) == "01003" by { assert "01003000100"[..5] == "01003"; }
    assert CountyKey(r2) == "01001" by { assert "01001000200"[..5] == "01001"; }
    ThreeRuns(r0, r1, r2, CountyKey);
    CountyRows("03/2015", [r0, r1, r2]);
  }

  /** Three records whose keys change at each step form three runs. */
  lemma ThreeRuns(r0: Record, r1: Record, r2: Record, key: Record -> string)
    requires key(r0) != key(r1) && key(r1) != key(r2)
    ensures Runs([r0, r1, r2], key) == [[r0], [r1], [r2]]
  {
    RunsSnoc([], r0, key);
    RunsSnoc([r0], r1, key);
    RunsSnoc([r0, r1], r2, key);
    assert [] + [r0] == [r0] && [r0] + [r1] == [r0, r1] && [r0, r1] + [r2] == [r0, r1, r2];
  }

  /** A file of one record writes one row at every level, each carrying
      that record's metrics unchanged; the one-record group's mean is the
      record's own AVG_VAC_R. */
  lemma SingleRecordFile(period: string, r: Record)
    ensures FileSpec(period, [r]) == Output(
      [Row(period, r.geoId, r.counts, r.avgDaysVacant)],
      [Row(period, CountyOf(r.geoId), r.counts, r.avgDaysVacant)],
      [Row(period, StateOf(r.geoId), r.counts, r.avgDaysVacant)],
      [Row(period, NationalId, r.counts, r.avgDaysVacant)])
  {
    OneRecordAccumulate(r);
    OneRecordRows(r, CountyKey, period);
    OneRecordRows(r, StateKey, period);
  }

  lemma OneRecordAccumulate(r: Record)
    ensures Accumulate([r]) == Acc(r.counts, r.avgDaysVacant, 1)
  {
    assert [r][..0] == [];
  }

  /** One record is one run, rolled up into a row with its own metrics. */
  lemma OneRecordRows(r: Record, key: Record -> string, period: string)
    ensures RowsOf(Runs([r], key), key, period) == [Row(period, key(r), r.counts, r.avgDaysVacant)]
  {
    RunsSnoc([], r, key);
    assert [] + [r] == [r];
    OneRecordAccumulate(r);
    assert [[r]][..0] == [];
  }
}
