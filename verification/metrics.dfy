/**
  Tract records, the per-level running accumulator, and output rows.

  Each tract record carries eight count metrics, which roll up by summing,
  and one ratio metric, the average days vacant (`AVG_VAC_R`), which rolls up
  as the mean of the records' values.
 */
module Metrics {

  datatype Option<T> = None | Some(value: T)

  /** The eight summable count metrics, in the order of the output columns:
      AMS_RES, RES_VAC, VAC_3_RES, VAC_3_6_R, VAC_6_12R, VAC_12_24R,
      VAC_24_36R, VAC_36_RES. */
  datatype Counts = Counts(
    activeResidential: int,
    residentialVacant: int,
    vacant0to3: int,
    vacant3to6: int,
    vacant6to12: int,
    vacant12to24: int,
    vacant24to36: int,
    vacant36plus: int)

  const Zero: Counts := Counts(0, 0, 0, 0, 0, 0, 0, 0)

  /** Field-by-field sum of two count vectors. */
  function Plus(a: Counts, b: Counts): Counts {
    Counts(
      a.activeResidential + b.activeResidential,
      a.residentialVacant + b.residentialVacant,
      a.vacant0to3 + b.vacant0to3,
      a.vacant3to6 + b.vacant3to6,
      a.vacant6to12 + b.vacant6to12,
      a.vacant12to24 + b.vacant12to24,
      a.vacant24to36 + b.vacant24to36,
      a.vacant36plus + b.vacant36plus)
  }

  /** One input row: a census tract of one file. `month` and `year` are the
      textual forms of the MONTH and YEAR columns. */
  datatype Record = Record(geoId: string, month: string, year: string, counts: Counts, avgDaysVacant: real)

  /** The running state of one level (national, state or county): the sums of
      the count metrics, the sum of AVG_VAC_R, and how many records were added
      since the last reset. */
  datatype Acc = Acc(counts: Counts, avgSum: real, n: nat)

  /** The accumulator after a reset: every sum and the record counter are 0. */
  const Empty: Acc := Acc(Zero, 0.0, 0)

  /** Adds one record's metrics to an accumulator. */
  function Add(a: Acc, r: Record): (b: Acc)
    ensures b.n == a.n + 1
  {
    Acc(Plus(a.counts, r.counts), a.avgSum + r.avgDaysVacant, a.n + 1)
  }

  /** One output line: the period, a GEOID and the nine metrics. */
  datatype Row = Row(period: string, geoId: string, counts: Counts, avgDaysVacant: real)

  /** The tract row for one record: the record passed through unchanged. */
  function TractRow(period: string, r: Record): (row: Row)
    ensures row.geoId == r.geoId && row.counts == r.counts && row.avgDaysVacant == r.avgDaysVacant
    ensures row.period == period
  {
    Row(period, r.geoId, r.counts, r.avgDaysVacant)
  }

  /** Finalises an accumulator into a row tagged with `key`: the sums are
      carried over and AVG_VAC_R becomes the mean over the added records.
      The scripts divide by the record counter, so a flush of an empty
      accumulator would fail; the precondition makes every caller prove the
      counter is at least 1. */
  function Flush(a: Acc, period: string, key: string): (row: Row)
    requires a.n >= 1
    ensures row.period == period && row.geoId == key && row.counts == a.counts
    ensures row.avgDaysVacant * (a.n as real) == a.avgSum
  {
    Row(period, key, a.counts, a.avgSum / (a.n as real))
  }

  /** Sum of the count metrics of a sequence of records, head first. */
  function TotalCounts(rs: seq<Record>): Counts {
    if |rs| == 0 then Zero else Plus(rs[0].counts, TotalCounts(rs[1..]))
  }

  /** Sum of AVG_VAC_R over a sequence of records, head first. */
  function AvgTotal(rs: seq<Record>): real {
    if |rs| == 0 then 0.0 else rs[0].avgDaysVacant + AvgTotal(rs[1..])
  }

  /** The accumulator reached by resetting and then adding every record of
      rs in order, as the per-record loop does. */
  function Accumulate(rs: seq<Record>): (a: Acc)
    ensures a.n == |rs|
  {
    if |rs| == 0 then Empty else Add(Accumulate(rs[..|rs| - 1]), rs[|rs| - 1])
  }

  lemma {:induction false} TotalCountsAppend(a: seq<Record>, b: seq<Record>)
    ensures TotalCounts(a + b) == Plus(TotalCounts(a), TotalCounts(b))
  {
    if |a| == 0 {
      assert a + b == b;
    } else {
      assert (a + b)[1..] == a[1..] + b;
      TotalCountsAppend(a[1..], b);
    }
  }

  lemma {:induction false} AvgTotalAppend(a: seq<Record>, b: seq<Record>)
    ensures AvgTotal(a + b) == AvgTotal(a) + AvgTotal(b)
  {
    if |a| == 0 {
      assert a + b == b;
    } else {
      assert (a + b)[1..] == a[1..] + b;
      AvgTotalAppend(a[1..], b);
    }
  }

  /** Adding records one at a time from a reset accumulator yields exactly the
      sums of the metrics over those records and counts them. */
  lemma {:induction false} AccumulateSums(rs: seq<Record>)
    ensures Accumulate(rs) == Acc(TotalCounts(rs), AvgTotal(rs), |rs|)
  {
    if |rs| > 0 {
      var init := rs[..|rs| - 1];
      var x := rs[|rs| - 1];
      AccumulateSums(init);
      assert rs == init + [x];
      TotalCountsAppend(init, [x]);
      AvgTotalAppend(init, [x]);
      assert TotalCounts([x]) == x.counts;
    }
  }

  /** The row flushed after accumulating a non-empty group carries the group's
      sums and, as AVG_VAC_R, the group's mean. */
  lemma GroupRow(rs: seq<Record>, period: string, key: string)
    requires |rs| >= 1
    ensures Accumulate(rs).n >= 1
    ensures Flush(Accumulate(rs), period, key).counts == TotalCounts(rs)
    ensures Flush(Accumulate(rs), period, key).avgDaysVacant == AvgTotal(rs) / (|rs| as real)
  {
    AccumulateSums(rs);
  }

  /** The mean lies between the least and the greatest AVG_VAC_R of the group. */
  lemma {:induction false} MeanWithinBounds(rs: seq<Record>, lo: real, hi: real)
    requires |rs| >= 1
    requires forall k :: 0 <= k < |rs| ==> lo <= rs[k].avgDaysVacant <= hi
    ensures lo <= AvgTotal(rs) / (|rs| as real) <= hi
  {
    TotalWithinBounds(rs, lo, hi);
    var n := |rs| as real;
    var m := AvgTotal(rs) / n;
    assert m * n == AvgTotal(rs);
    if m < lo {
      assert m * n < lo * n;
    }
    if m > hi {
      assert m * n > hi * n;
    }
  }

  lemma {:induction false} TotalWithinBounds(rs: seq<Record>, lo: real, hi: real)
    requires forall k :: 0 <= k < |rs| ==> lo <= rs[k].avgDaysVacant <= hi
    ensures lo * (|rs| as real) <= AvgTotal(rs) <= hi * (|rs| as real)
  {
    if |rs| > 0 {
      TotalWithinBounds(rs[1..], lo, hi);
    }
  }

  /** A group whose records all report the same AVG_VAC_R has that value as its
      mean. */
  lemma MeanOfConstant(rs: seq<Record>, v: real)
    requires |rs| >= 1
    requires forall k :: 0 <= k < |rs| ==> rs[k].avgDaysVacant == v
    ensures AvgTotal(rs) / (|rs| as real) == v
  {
    MeanWithinBounds(rs, v, v);
  }

  /** One cell of a delimited output line. */
  datatype Cell = Text(text: string) | Count(count: int) | Ratio(ratio: real)

  /** The fixed 11-column layout shared by all four outputs: Month/Year, GEOID,
      AMS_RES, RES_VAC, AVG_VAC_R, VAC_3_RES, VAC_3_6_R, VAC_6_12R,
      VAC_12_24R, VAC_24_36R, VAC_36_RES. */
  function Cells(row: Row): (cells: seq<Cell>)
    ensures |cells| == 11
  {
    var c := row.counts;
    [Text(row.period), Text(row.geoId),
     Count(c.activeResidential), Count(c.residentialVacant),
     Ratio(row.avgDaysVacant),
     Count(c.vacant0to3), Count(c.vacant3to6), Count(c.vacant6to12),
     Count(c.vacant12to24), Count(c.vacant24to36), Count(c.vacant36plus)]
  }

  /** Reads an 11-column line back into a row, or None when the line does not
      have the layout of `Cells`. */
  function ParseCells(cells: seq<Cell>): Option<Row> {
    if |cells| == 11
       && cells[0].Text? && cells[1].Text? && cells[2].Count? && cells[3].Count?
       && cells[4].Ratio? && cells[5].Count? && cells[6].Count? && cells[7].Count?
       && cells[8].Count? && cells[9].Count? && cells[10].Count?
    then
      Some(Row(cells[0].text, cells[1].text,
               Counts(cells[2].count, cells[3].count, cells[5].count, cells[6].count,
                      cells[7].count, cells[8].count, cells[9].count, cells[10].count),
               cells[4].ratio))
    else None
  }

  /** The layout loses nothing: every row can be read back from its line. */
  lemma CellsRoundTrip(row: Row)
    ensures ParseCells(Cells(row)) == Some(row)
  {
  }

  /** ... and every line that reads back as a row is exactly that row's line. */
  lemma ParseCellsExact(cells: seq<Cell>, row: Row)
    requires ParseCells(cells) == Some(row)
    ensures Cells(row) == cells
  {
  }
}
