/**
  The per-file control-break loop: every record is passed through as a tract
  row and added to a national, a state and a county accumulator; a change of
  the state or county prefix of the GEOID first flushes that level's
  accumulator as a row keyed by the previous prefix, and the end of the file
  flushes all three levels unconditionally.

  `FileSpec` says what one file produces without any loop: the tract rows,
  one row per maximal run of equal county (state) prefix, and one national
  row. `ProcessFile` is the loop, and its contract is that it computes
  `FileSpec`.
 */
module Aggregator {
  import opened Geo
  import opened Metrics
  import opened Grouping

  /** The state key of a record: `GEOID[0:2]`. */
  function StateKey(r: Record): string {
    StateOf(r.geoId)
  }

  /** The county key of a record: `GEOID[0:5]`. */
  function CountyKey(r: Record): string {
    CountyOf(r.geoId)
  }

  /** The state key never separates two records of one county. */
  lemma StateCoarserThanCounty()
    ensures Coarser(StateKey, CountyKey)
  {
    forall a: Record, b: Record | CountyKey(a) == CountyKey(b)
      ensures StateKey(a) == StateKey(b)
    {
      SameCountySameState(a.geoId, b.geoId);
    }
  }

  /** The three accumulators the loop keeps. */
  datatype Accs = Accs(national: Acc, state: Acc, county: Acc)

  /** All three accumulators reset: the state before the first file and after
      the end-of-file flushes of every file. */
  const Fresh: Accs := Accs(Empty, Empty, Empty)

  /** The run counters: records read, and rows written per level. */
  datatype Counters = Counters(all: nat, national: nat, state: nat, county: nat, tract: nat)

  /** The four output streams, each as the sequence of rows written to it. */
  datatype Output = Output(tract: seq<Row>, county: seq<Row>, state: seq<Row>, national: seq<Row>)

  /** The tract rows of the first n records: one per record, in input order. */
  function TractRows(period: string, recs: seq<Record>, n: nat): (rows: seq<Row>)
    requires n <= |recs|
    ensures |rows| == n
  {
    if n == 0 then [] else TractRows(period, recs, n - 1) + [TractRow(period, recs[n - 1])]
  }

  /** The national accumulator after the first n records of a file: every
      one of them added, since the national level never flushes mid-file. */
  function NationalAfter(recs: seq<Record>, n: nat): (a: Acc)
    requires n <= |recs|
    ensures a.n == n
  {
    if n == 0 then Empty else Add(NationalAfter(recs, n - 1), recs[n - 1])
  }

  /** The national accumulator after n records holds exactly those records. */
  lemma {:induction false} NationalAfterIsAccumulate(recs: seq<Record>, n: nat)
    requires n <= |recs|
    ensures NationalAfter(recs, n) == Accumulate(recs[..n])
  {
    if n > 0 {
      NationalAfterIsAccumulate(recs, n - 1);
      TakeSnoc(recs, n - 1);
      AccumulateSnoc(recs[..n - 1], recs[n - 1]);
    }
  }

  /** What one non-empty file contributes to the four outputs. */
  function FileSpec(period: string, recs: seq<Record>): Output
    requires |recs| > 0
  {
    Output(
      TractRows(period, recs, |recs|),
      RowsOf(Runs(recs, CountyKey), CountyKey, period),
      RowsOf(Runs(recs, StateKey), StateKey, period),
      [Flush(Accumulate(recs), period, NationalId)])
  }

  /** What the loop keeps for the state or the county level: the rows
      written so far, the accumulator, and the stored key (`myState` or
      `myCounty`). */
  datatype Level = Level(rows: seq<Row>, acc: Acc, current: string)

  /** One level after the loop has handled the first i records, as the loop
      computes it. Before the first record nothing is written, the
      accumulator is reset and the stored key is the first record's. Each
      record whose key differs from the stored key first writes the open
      accumulator's row under the stored key and resets the accumulator;
      then the record is added and its key stored. */
  function LevelAfter(recs: seq<Record>, i: nat, key: Record -> string, period: string): (l: Level)
    requires 0 < |recs| && i <= |recs|
    ensures l.current == key(recs[if i == 0 then 0 else i - 1])
    ensures i > 0 ==> l.acc.n >= 1
  {
    if i == 0 then Level([], Empty, key(recs[0]))
    else
      var l := LevelAfter(recs, i - 1, key, period);
      var r := recs[i - 1];
      if l.current != key(r) then Level(l.rows + [Flush(l.acc, period, l.current)], Add(Empty, r), key(r))
      else Level(l.rows, Add(l.acc, r), key(r))
  }

  lemma TakeSnoc(s: seq<Record>, i: nat)
    requires i < |s|
    ensures s[..i + 1] == s[..i] + [s[i]]
  {
  }

  lemma AccumulateSnoc(rs: seq<Record>, x: Record)
    ensures Accumulate(rs + [x]) == Add(Accumulate(rs), x)
  {
    assert (rs + [x])[..|rs|] == rs;
  }

  /** The maximal-run view of the first i records at one level: the rows of
      every finished run, the accumulator of the run still open, and the
      last record's key. */
  function RunView(recs: seq<Record>, i: nat, key: Record -> string, period: string): Level
    requires 0 < i <= |recs|
  {
    var runs := Runs(recs[..i], key);
    Level(RowsOf(runs[..|runs| - 1], key, period), Accumulate(Last(runs)), key(recs[i - 1]))
  }

  /** The level the loop keeps is the maximal-run view of the records seen
      so far: the rows of every finished run have been written, in order,
      the accumulator holds exactly the run still open, and the stored key
      is the last record's. In particular every flush the loop performs
      divides by a positive counter and writes a complete run's row. */
  lemma {:induction false} LevelAfterIsRuns(recs: seq<Record>, i: nat, key: Record -> string, period: string)
    requires 0 < i <= |recs|
    ensures LevelAfter(recs, i, key, period) == RunView(recs, i, key, period)
  {
    if i == 1 {
      RunsFirst(recs, key);
    } else {
      LevelAfterIsRuns(recs, i - 1, key, period);
      if key(recs[i - 2]) == key(recs[i - 1]) {
        ContinueView(recs, i - 1, key, period);
      } else {
        BreakView(recs, i - 1, key, period);
      }
    }
  }

  lemma ContinueView(recs: seq<Record>, i: nat, key: Record -> string, period: string)
    requires 0 < i < |recs|
    requires key(recs[i - 1]) == key(recs[i])
    requires LevelAfter(recs, i, key, period) == RunView(recs, i, key, period)
    ensures LevelAfter(recs, i + 1, key, period) == RunView(recs, i + 1, key, period)
  {
    var l := LevelAfter(recs, i, key, period);
    assert LevelAfter(recs, i + 1, key, period) == Level(l.rows, Add(l.acc, recs[i]), key(recs[i]));
    RunsContinue(recs, i, key, period);
  }

  lemma BreakView(recs: seq<Record>, i: nat, key: Record -> string, period: string)
    requires 0 < i < |recs|
    requires key(recs[i - 1]) != key(recs[i])
    requires LevelAfter(recs, i, key, period) == RunView(recs, i, key, period)
    ensures LevelAfter(recs, i + 1, key, period) == RunView(recs, i + 1, key, period)
  {
    var l := LevelAfter(recs, i, key, period);
    assert LevelAfter(recs, i + 1, key, period)
        == Level(l.rows + [Flush(l.acc, period, l.current)], Add(Empty, recs[i]), key(recs[i]));
    RunsBreak(recs, i, key, period);
  }

  /** The first record opens the first run, and no run is finished. */
  lemma RunsFirst(recs: seq<Record>, key: Record -> string)
    requires 0 < |recs|
    ensures var runs := Runs(recs[..1], key);
      runs[..|runs| - 1] == [] && Accumulate(Last(runs)) == Add(Empty, recs[0])
  {
    var x := recs[0];
    assert recs[..1] == [] + [x];
    RunsSnoc([], x, key);
    AccumulateSnoc([], x);
  }

  /** A record with the previous record's key joins the open run. */
  lemma RunsContinue(recs: seq<Record>, i: nat, key: Record -> string, period: string)
    requires 0 < i < |recs|
    requires key(recs[i - 1]) == key(recs[i])
    ensures var runs := Runs(recs[..i], key); var runs' := Runs(recs[..i + 1], key);
      && runs'[..|runs'| - 1] == runs[..|runs| - 1]
      && Accumulate(Last(runs')) == Add(Accumulate(Last(runs)), recs[i])
  {
    var x := recs[i];
    var pre := recs[..i];
    TakeSnoc(recs, i);
    assert Last(pre) == recs[i - 1];
    RunsSnoc(pre, x, key);
    ContinueStep(Runs(pre, key), x, key, period);
  }

  /** A record with another key closes the open run, whose row joins the
      finished ones, and starts a new run. */
  lemma RunsBreak(recs: seq<Record>, i: nat, key: Record -> string, period: string)
    requires 0 < i < |recs|
    requires key(recs[i - 1]) != key(recs[i])
    ensures var runs := Runs(recs[..i], key); var runs' := Runs(recs[..i + 1], key);
      && Accumulate(Last(runs)).n >= 1
      && RowsOf(runs'[..|runs'| - 1], key, period)
         == RowsOf(runs[..|runs| - 1], key, period) + [Flush(Accumulate(Last(runs)), period, key(recs[i - 1]))]
      && Accumulate(Last(runs')) == Add(Empty, recs[i])
  {
    var x := recs[i];
    var pre := recs[..i];
    TakeSnoc(recs, i);
    assert Last(pre) == recs[i - 1];
    RunsSnoc(pre, x, key);
    BreakStep(Runs(pre, key), x, key, period);
  }
  /** Continuing the open run: the finished runs stay the same and the open
      run gains the record. */
  lemma ContinueStep(init: seq<seq<Record>>, x: Record, key: Record -> string, period: string)
    requires forall j :: 0 <= j < |init| ==> |init[j]| > 0
    requires |init| > 0
    ensures var runs := init[..|init| - 1] + [Last(init) + [x]];
      && runs[..|runs| - 1] == init[..|init| - 1]
      && Accumulate(Last(runs)) == Add(Accumulate(Last(init)), x)
  {
    AccumulateSnoc(Last(init), x);
  }

  /** Starting a new run: the previously open run joins the finished ones,
      and its row is the one the flush writes. */
  lemma BreakStep(init: seq<seq<Record>>, x: Record, key: Record -> string, period: string)
    requires forall j :: 0 <= j < |init| ==> |init[j]| > 0
    requires |init| > 0
    ensures var runs := init + [[x]];
      && Accumulate(Last(init)).n >= 1
      && RowsOf(runs[..|runs| - 1], key, period) ==
           RowsOf(init[..|init| - 1], key, period) + [Flush(Accumulate(Last(init)), period, key(Last(init)[0]))]
      && Accumulate(Last(runs)) == Add(Empty, x)
  {
    var m := |init|;
    assert (init + [[x]])[..m] == init;
    assert init == init[..m - 1] + [Last(init)];
    RowsOfSnoc(init[..m - 1], Last(init), key, period);
    AccumulateSnoc([], x);
    assert [] + [x] == [x];
  }

  /** After the last record, the open run is non-empty, and flushing it under
      the last record's key completes the rows of every run. */
  lemma LevelEnd(recs: seq<Record>, key: Record -> string, period: string)
    requires 0 < |recs|
    ensures var l := LevelAfter(recs, |recs|, key, period);
      && l.acc.n >= 1
      && l.rows + [Flush(l.acc, period, key(Last(recs)))] == RowsOf(Runs(recs, key), key, period)
  {
    LevelAfterIsRuns(recs, |recs|, key, period);
    var runs := Runs(recs, key);
    assert recs[..|recs|] == recs;
    assert runs == runs[..|runs| - 1] + [Last(runs)];
    RowsOfSnoc(runs[..|runs| - 1], Last(runs), key, period);
  }

  /** Checks one level's boundary for record i, as the loop does before
      adding the record: when the record's key differs from the stored key,
      the open run's row is written and the accumulator reset. Adding the
      record to the returned accumulator and storing its key then gives the
      level's state one record further. */
  method CheckBoundary(recs: seq<Record>, i: nat, key: Record -> string, period: string, l: Level)
    returns (l': Level, flushed: bool)
    requires i < |recs|
    requires l == LevelAfter(recs, i, key, period)
    ensures flushed <==> l.current != key(recs[i])
    ensures |l'.rows| == |l.rows| + (if flushed then 1 else 0)
    ensures flushed ==> l'.acc == Empty
    ensures LevelAfter(recs, i + 1, key, period) == Level(l'.rows, Add(l'.acc, recs[i]), key(recs[i]))
  {
    flushed := l.current != key(recs[i]);
    if flushed {
      l' := Level(l.rows + [Flush(l.acc, period, l.current)], Empty, l.current);
    } else {
      l' := l;
    }
  }

  /** The end-of-file flush of one level: the open accumulator's row,
      written under the last record's key, completes the rows of every run. */
  method CloseLevel(recs: seq<Record>, key: Record -> string, period: string, l: Level)
    returns (rows: seq<Row>)
    requires 0 < |recs|
    requires l == LevelAfter(recs, |recs|, key, period)
    ensures rows == RowsOf(Runs(recs, key), key, period)
    ensures |rows| == |l.rows| + 1
  {
    LevelEnd(recs, key, period);
    rows := l.rows + [Flush(l.acc, period, key(recs[|recs| - 1]))];
  }

  /** Everything the per-record loop carries from one record to the next:
      the tract rows written so far, the national accumulator, the state
      and county levels, and the run counters. */
  datatype Scan = Scan(tract: seq<Row>, national: Acc, state: Level, county: Level, counters: Counters)

  /** The loop state after the first i records of a file that started with
      reset accumulators and the counters `start`. */
  function ScanAfter(period: string, recs: seq<Record>, i: nat, start: Counters): (s: Scan)
    requires 0 < |recs| && i <= |recs|
    ensures s.national.n == i && |s.tract| == i
  {
    var state := LevelAfter(recs, i, StateKey, period);
    var county := LevelAfter(recs, i, CountyKey, period);
    Scan(TractRows(period, recs, i), NationalAfter(recs, i), state, county,
         Counters(start.all + i, start.national, start.state + |state.rows|,
                  start.county + |county.rows|, start.tract + i))
  }

  /** The loop state before the first record: nothing written for this file,
      the accumulators as they came in, and both keys taken from the first
      record. Starting from reset accumulators this is `ScanAfter` at 0. */
  function StartScan(period: string, recs: seq<Record>, accs: Accs, counters: Counters): (s: Scan)
    requires |recs| > 0
    ensures accs == Fresh ==> s == ScanAfter(period, recs, 0, counters)
  {
    assert recs[..0] == [];
    Scan([], accs.national,
         Level([], accs.state, StateOf(recs[0].geoId)),
         Level([], accs.county, CountyOf(recs[0].geoId)),
         counters)
  }

  /** The body of the per-record loop for record i: count it, write its
      tract row, check the county boundary, check the state boundary, add
      the record to all three accumulators, and store its keys. */
  method HandleRecord(period: string, recs: seq<Record>, i: nat, start: Counters, s: Scan)
    returns (s': Scan)
    requires i < |recs|
    requires s == ScanAfter(period, recs, i, start)
    ensures s' == ScanAfter(period, recs, i + 1, start)
  {
    var r := recs[i];
    var c := s.counters;
    var numAll, numTract := c.all + 1, c.tract + 1;
    var tract := s.tract + [TractRow(period, r)];

    var county, countyFlushed := CheckBoundary(recs, i, CountyKey, period, s.county);
    var numCounty := if countyFlushed then c.county + 1 else c.county;

    var state, stateFlushed := CheckBoundary(recs, i, StateKey, period, s.state);
    var numState := if stateFlushed then c.state + 1 else c.state;

    var national := Add(s.national, r);
    state := Level(state.rows, Add(state.acc, r), StateOf(r.geoId));
    county := Level(county.rows, Add(county.acc, r), CountyOf(r.geoId));
    s' := Scan(tract, national, state, county, Counters(numAll, c.national, numState, numCounty, numTract));
  }

  /** The end-of-file block: flush the national accumulator under the
      invented GEOID, then the state and the county accumulators under the
      last record's prefixes, counting each row, and reset all three. */
  method FinishFile(period: string, recs: seq<Record>, start: Counters, s: Scan)
    returns (out: Output, accs': Accs, counters': Counters)
    requires |recs| > 0
    requires s == ScanAfter(period, recs, |recs|, start)
    ensures out == FileSpec(period, recs)
    ensures accs' == Fresh
    ensures counters' == Counters(start.all + |recs|, start.national + 1,
                                  start.state + |out.state|, start.county + |out.county|,
                                  start.tract + |recs|)
  {
    assert recs[..|recs|] == recs;
    NationalAfterIsAccumulate(recs, |recs|);
    var c := s.counters;

    var nationalRow := Flush(s.national, period, NationalId);
    var numNational := c.national + 1;

    var stateRows := CloseLevel(recs, StateKey, period, s.state);
    var numState := c.state + 1;

    var countyRows := CloseLevel(recs, CountyKey, period, s.county);
    var numCounty := c.county + 1;

    out := Output(s.tract, countyRows, stateRows, [nationalRow]);
    accs' := Fresh;
    counters' := Counters(c.all, numNational, numState, numCounty, c.tract);
  }

  /** The per-record loop over one file: handles every record in order. */
  method ScanRecords(period: string, recs: seq<Record>, start: Counters, s0: Scan)
    returns (s: Scan)
    requires |recs| > 0
    requires s0 == ScanAfter(period, recs, 0, start)
    ensures s == ScanAfter(period, recs, |recs|, start)
  {
    s := s0;
    var i: nat := 0;
    while i < |recs|
      invariant 0 <= i <= |recs|
      invariant s == ScanAfter(period, recs, i, start)
    {
      s := HandleRecord(period, recs, i, start, s);
      i := i + 1;
    }
  }

  /** One file through the control-break loop. The accumulators come in reset
      (the previous file's end-of-file flushes leave them so) and go out
      reset; the output is exactly `FileSpec`, and every counter advances by
      the number of rows written at its level (the record counters by the
      number of records). */
  method ProcessFile(period: string, recs: seq<Record>, accs: Accs, counters: Counters)
    returns (out: Output, accs': Accs, counters': Counters)
    requires |recs| > 0
    requires accs == Fresh
    ensures out == FileSpec(period, recs)
    ensures accs' == Fresh
    ensures counters' == Counters(counters.all + |recs|, counters.national + 1,
                                  counters.state + |out.state|, counters.county + |out.county|,
                                  counters.tract + |recs|)
  {
    var s := StartScan(period, recs, accs, counters);
    s := ScanRecords(period, recs, counters, s);
    out, accs', counters' := FinishFile(period, recs, counters, s);
  }
}
