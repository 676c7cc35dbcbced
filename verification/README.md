# HUD vacancy roll-up: a Dafny model of the control-break aggregator

The two scripts `ProcessHUDfilesForVizWithFnV6Py36.py` (Python 3) and
`ProcessHUDfilesForVizWithFnV2.py` (Python 2) read quarterly HUD vacancy
files. Each file is a sequence of census-tract records. In one pass per file
the scripts write four outputs:

- every record is passed through unchanged to the tract output;
- a county row is written whenever the county prefix of the GEOID
  (`GEOID[0:5]`) changes, keyed by the previous prefix;
- a state row is written whenever the state prefix (`GEOID[0:2]`) changes,
  in the same way;
- at the end of the file, one national row (the invented GEOID `"01"`) is
  written, followed by the final state row and the final county row.

Every aggregate row carries the sums of eight count metrics and the mean of
`AVG_VAC_R`. After every row the level's accumulator is reset. In the
modelled core, the scripts differ only in where a file's reporting period
comes from. The one other difference is V2's Python 2 division, listed
under "Left out".

- V6 slices it out of the file name: `myFile[-21:-19] + "/" + myFile[-26:-22]`;
- V2 reads the MONTH and YEAR of the file's first record.

The model is organised by module.

- `Geo` (`geo.dfy`): Python's clamped string slicing, the state and county
  keys, and the file-name period.
- `Metrics` (`metrics.dfy`): records, the running accumulator (sums, the
  `AVG_VAC_R` sum and a record counter), the flush that turns an
  accumulator into a row, and the 11-column output layout.
- `Grouping` (`grouping.dfy`): what the loop computes, stated without a
  loop. The records are split into maximal runs of equal key (`Runs`), and
  each run rolls up into one row (`RowsOf`). It proves that `Runs` is the
  unique partition into maximal runs, that the row sums are conserved, how
  many runs there are, and that contiguous keys give one run per key
  holding every record of that key (`Filter` selects a key's records).
- `Aggregator` (`aggregator.dfy`): the per-file loop, as methods:
  `CheckBoundary`, `HandleRecord`, `ScanRecords`, `CloseLevel`,
  `FinishFile` and `ProcessFile`.
  - `LevelAfter` is the state one level keeps, defined the way the loop
    updates it: flush on a key change, then add the record.
  - `LevelAfterIsRuns` proves that this state is always the maximal-run
    view of the records seen so far.
  - `ProcessFile` is proved to write exactly `FileSpec`.
- `Outputs` (`outputs.dfy`): what `FileSpec` contains, row by row.
- `Driver` (`driver.dfy`): the loop over files, the two period derivations,
  the accumulators carried between files, and the run counters.

Nothing from the scripts' I/O is modelled:

- reading the `.dbf` files becomes the input `seq<Record>` of each
  `InputFile`;
- the four CSV writers become the four `seq<Row>` of an `Output`;
- the printed counters become the `Counters` returned by `Run`.

## Model

| member | source | states |
|---|---|---|
| Geo.PrefixIsSlice | ProcessHUDfilesForVizWithFnV6Py36.py:274 | The key prefix is Python's `g[0:w]`: a prefix of the GEOID of length min(w, len(g)), with no error for a short GEOID |
| Geo.SameCountySameState | ProcessHUDfilesForVizWithFnV6Py36.py:274-310 | Two GEOIDs with the same 5-character county prefix have the same 2-character state prefix, so a state change is always also a county change |
| Geo.FileNamePeriodOfLayout | ProcessHUDfilesForVizWithFnV6Py36.py:250 | For a file name `<head><yyyy><c><mm>` followed by 19 characters, the sliced period is `mm/yyyy` |
| Geo.ShortFileNamePeriod | ProcessHUDfilesForVizWithFnV6Py36.py:250 | The period slices never fail: a name of at most 19 characters gives the period `/`. Neither script reaches this case, because `int(myFile[-26:-22])` at ProcessHUDfilesForVizWithFnV6Py36.py:226 and ProcessHUDfilesForVizWithFnV2.py:235 raises on the empty slice first |
| Metrics.Flush | ProcessHUDfilesForVizWithFnV6Py36.py:277-290 | A flushed row carries the period, the given key and the accumulated sums, and its AVG_VAC_R times the record counter equals the accumulated AVG_VAC_R sum; flushing needs a counter of at least 1, as the division does |
| Metrics.AccumulateSums | ProcessHUDfilesForVizWithFnV6Py36.py:359-385 | Adding records one by one from a reset accumulator gives exactly the per-field sums over those records, their AVG_VAC_R sum and their number; so each added record raises the record counter by one |
| Metrics.GroupRow | ProcessHUDfilesForVizWithFnV6Py36.py:277-307 | The row of a non-empty group carries the group's field sums and, as AVG_VAC_R, the group's arithmetic mean |
| Metrics.MeanWithinBounds | ProcessHUDfilesForVizWithFnV6Py36.py:277 | The mean written for a group lies between the smallest and the largest AVG_VAC_R in the group |
| Metrics.MeanOfConstant | ProcessHUDfilesForVizWithFnV6Py36.py:313 | A group whose records all have the same AVG_VAC_R has that value as its mean, not a sum |
| Metrics.CellsRoundTrip | ProcessHUDfilesForVizWithFnV6Py36.py:280-290 | The 11-column output line of a row reads back as exactly that row |
| Metrics.ParseCellsExact | ProcessHUDfilesForVizWithFnV6Py36.py:316-326 | A line that reads back as a row is exactly that row's 11-column line |
| Grouping.Runs | ProcessHUDfilesForVizWithFnV6Py36.py:274-307 | The maximal runs are non-empty, there are none exactly for an empty file, never more runs than records, and the last run has the last record's key |
| Grouping.RunsPartition | ProcessHUDfilesForVizWithFnV6Py36.py:274-307 | The runs concatenate back to the file, every record of a run has the run's key, and the key changes from each run to the next |
| Grouping.RunPartitionUnique | ProcessHUDfilesForVizWithFnV6Py36.py:274-307 | Any cut of the file into non-empty, single-key pieces whose key changes at every cut is exactly the maximal runs |
| Grouping.RunCount | ProcessHUDfilesForVizWithFnV6Py36.py:274-293 | A non-empty file has one run more than the number of neighbouring records whose keys differ |
| Grouping.FewerCoarseRuns | ProcessHUDfilesForVizWithFnV6Py36.py:310-329 | A key that never separates two records the finer key puts together yields no more runs than the finer key |
| Grouping.RunKeysAreRecordKeys | ProcessHUDfilesForVizWithFnV6Py36.py:280-281 | The keys of the runs are exactly the keys present among the records |
| Grouping.OneRunPerKey | ProcessHUDfilesForVizWithFnV6Py36.py:274-307 | When each key's records are contiguous, no two runs share a key and there is one run per key present |
| Grouping.FilterRuns | ProcessHUDfilesForVizWithFnV6Py36.py:274-307 | When no two runs share a key, the records carrying a run's key, wherever they sit in the file, are exactly that run's records |
| Grouping.ContiguousRowKeys | ProcessHUDfilesForVizWithFnV6Py36.py:274-307 | When each key's records are contiguous, the rows' GEOIDs are exactly the keys present among the records, one row each, with no repeats |
| Grouping.ContiguousRowSums | ProcessHUDfilesForVizWithFnV6Py36.py:274-307 | When each key's records are contiguous, each row carries the sums over every record of its key and the mean of their AVG_VAC_R |
| Grouping.RowsOfIndex | ProcessHUDfilesForVizWithFnV6Py36.py:280-290 | The j-th row written at a level is the roll-up of the j-th run |
| Grouping.RowsConserveTotals | ProcessHUDfilesForVizWithFnV6Py36.py:360-385 | The rows of a level add up, field by field, to the totals over the whole file |
| Grouping.RowsOfRuns | ProcessHUDfilesForVizWithFnV6Py36.py:296-307 | One row per maximal run, in order, tagged with the run's key, with the sums over exactly the run's records and the mean of their AVG_VAC_R |
| Aggregator.StateCoarserThanCounty | ProcessHUDfilesForVizWithFnV6Py36.py:388-389 | The stored state key never separates two records that share the stored county key |
| Aggregator.NationalAfterIsAccumulate | ProcessHUDfilesForVizWithFnV6Py36.py:345-357 | The national accumulator after n records holds exactly the first n records, since it is never flushed mid-file |
| Aggregator.LevelAfterIsRuns | ProcessHUDfilesForVizWithFnV6Py36.py:273-389 | Flushing on a key change and then adding the record leaves each level holding the rows of every finished maximal run, an accumulator of exactly the open run, and the last record's key |
| Aggregator.RunsBreak | ProcessHUDfilesForVizWithFnV6Py36.py:274-307 | On a key change the open run's accumulator holds at least one record, so the division is defined, and the flushed row is that complete run's row |
| Aggregator.CheckBoundary | ProcessHUDfilesForVizWithFnV2.py:279-312 | A level flushes exactly when the record's key differs from the stored key; the flush appends one row and resets the accumulator, and adding the record afterwards gives the level's state one record further |
| Aggregator.StartScan | ProcessHUDfilesForVizWithFnV6Py36.py:241-247 | With reset accumulators, the state before the first record has nothing written, and both stored keys are the first record's prefixes |
| Aggregator.HandleRecord | ProcessHUDfilesForVizWithFnV2.py:259-395 | One record through the loop body (count, tract row, county check, state check, add to all three levels, store keys) advances the loop state by exactly that record |
| Aggregator.ScanRecords | ProcessHUDfilesForVizWithFnV6Py36.py:254-389 | After the record loop, the loop state is the state after all records of the file |
| Aggregator.CloseLevel | ProcessHUDfilesForVizWithFnV6Py36.py:429-493 | The end-of-file flush under the last record's prefix writes exactly one row and completes the rows of every maximal run |
| Aggregator.FinishFile | ProcessHUDfilesForVizWithFnV2.py:401-497 | The end-of-file block writes the file's national, state and county rows, advances each row counter by one and resets all three accumulators |
| Aggregator.ProcessFile | ProcessHUDfilesForVizWithFnV6Py36.py:236-493 | One non-empty file, starting from reset accumulators, writes exactly the run-based output, leaves the accumulators reset, and advances the counters by its records and rows |
| Outputs.TractLines | ProcessHUDfilesForVizWithFnV6Py36.py:260-271 | The tract line for each record lists the period, the GEOID, AMS_RES, RES_VAC, AVG_VAC_R and the six vacancy-duration counts of that record, in that column order |
| Outputs.NationalLine | ProcessHUDfilesForVizWithFnV6Py36.py:396-410 | The national line of a file lists the period, "01", the file's AMS_RES and RES_VAC totals, its mean AVG_VAC_R and the totals of the six vacancy-duration counts, in that column order |
| Outputs.TractPassthrough | ProcessHUDfilesForVizWithFnV6Py36.py:254-271 | Exactly one tract row per record, in input order, with the period, the GEOID and the nine metrics unchanged |
| Outputs.CountyRows | ProcessHUDfilesForVizWithFnV6Py36.py:274-307 | One county row per maximal run of equal `GEOID[0:5]`, tagged with that prefix, with the run's sums and mean |
| Outputs.StateRows | ProcessHUDfilesForVizWithFnV6Py36.py:310-343 | One state row per maximal run of equal `GEOID[0:2]`, tagged with that prefix, with the run's sums and mean |
| Outputs.NationalRow | ProcessHUDfilesForVizWithFnV6Py36.py:397-413 | Exactly one national row per file, with GEOID "01", the sums over all the file's records and their mean AVG_VAC_R |
| Outputs.TotalsAgree | ProcessHUDfilesForVizWithFnV6Py36.py:346-385 | Summed field by field, the county rows, the state rows and the national row all equal the file's totals |
| Outputs.RowCounts | ProcessHUDfilesForVizWithFnV6Py36.py:274-329 | Each level writes one more row than its key changes; there are at least 1 and at most as many state rows as county rows, no more county rows than records, and one national row |
| Outputs.ContiguousCountiesOneRowEach | ProcessHUDfilesForVizWithFnV6Py36.py:274-307 | If every county's tracts are contiguous, the county rows' GEOIDs are exactly the county prefixes present, no two rows share one, and each row carries the sums over every record of its county and their mean AVG_VAC_R |
| Outputs.ContiguousStatesOneRowEach | ProcessHUDfilesForVizWithFnV6Py36.py:310-343 | If every state's tracts are contiguous, the state rows' GEOIDs are exactly the state prefixes present, no two rows share one, and each row carries the sums over every record of its state and their mean AVG_VAC_R |
| Outputs.InterleavedCountyWrittenTwice | ProcessHUDfilesForVizWithFnV6Py36.py:274-293 | Sortedness is not checked: a county interrupted by another county is written as two rows with the same GEOID |
| Outputs.RowsCarryPeriod | ProcessHUDfilesForVizWithFnV6Py36.py:250-271 | Every row of all four outputs carries the file's period |
| Outputs.SingleRecordFile | ProcessHUDfilesForVizWithFnV6Py36.py:254-493 | A one-record file writes one row at every level, each with that record's metrics, and its mean is the record's own AVG_VAC_R |
| Driver.RunFiles | ProcessHUDfilesForVizWithFnV6Py36.py:219-493 | Over all files: the output is each file's output in file order; `all` and `tract` count every record, `national` counts the files, and `state`/`county` count the rows written |
| Driver.NextFile | ProcessHUDfilesForVizWithFnV2.py:228-497 | Each file starts and ends with reset accumulators, so its rows depend on its own records only and are appended after the earlier files' rows |
| Driver.Run | ProcessHUDfilesForVizWithFnV6Py36.py:101-105 | A run of one version of the script writes the per-file outputs under that version's period and reports the record, file and row counts |
| Driver.NationalRowPerFile | ProcessHUDfilesForVizWithFnV6Py36.py:397-427 | The national output has one row per file, in file order, and the k-th row rolls up the k-th file alone |
| Driver.TractRowPerRecord | ProcessHUDfilesForVizWithFnV2.py:262-276 | The tract output of a run has exactly one row per record read over all files |
| Driver.FirstRecordPeriod | ProcessHUDfilesForVizWithFnV2.py:255 | With the period taken from the first record, every row of the file carries that record's MONTH/YEAR, whatever later records hold |
| Driver.FileNamePeriodOfFile | ProcessHUDfilesForVizWithFnV6Py36.py:250 | With the period taken from the file name, a name with the expected layout gives `mm/yyyy` whatever its records hold |

## Left out

- Reading `.dbf` files (`dbf2DF`, pandas), `glob`, opening, writing and
  closing the CSV files, header rows, `print` and timing. These are I/O and
  library calls; records come in as a sequence and rows go out as four
  sequences.
- The choice between upper- and lower-case column lists
  (`int(myFile[-26:-22]) >= 2015`). It only picks column names for the
  library reader. It also parses the year slice as an integer, which raises
  for a file name whose slice is not a number; that parse is not modelled.
- Floating-point arithmetic, and Python 2 integer division in V2. AVG_VAC_R
  is a `real` and the mean is an exact quotient.
- Empty files are excluded by precondition. The scripts fail at `iloc[0]`
  on them before any row is written.
- The order in which rows of different outputs interleave in time. Each
  output is its own sequence.
- `str()` of MONTH and YEAR in V2: both are modelled as the text they
  print as.
- `ProcessHUDfilesForViz.py`, an unfinished earlier draft that does not
  parse and writes nothing. It is not part of this model.
- Behaviour a reader might expect but the scripts do not have. The model
  follows the code:
  - a GEOID shorter than 5 characters is not rejected; the slice yields the
    shorter string (`Geo.PrefixIsSlice`);
  - an empty group is never skipped at a flush; instead it is proved that no
    flush ever sees an empty accumulator (`Metrics.Flush` requires a
    counter of at least 1, and every caller discharges it);
  - sortedness is not checked (`Outputs.InterleavedCountyWrittenTwice`);
  - the scripts catch no exception, so any error ends the whole run. An
    empty file raises `IndexError` at `iloc[0]`
    (ProcessHUDfilesForVizWithFnV6Py36.py:239,
    ProcessHUDfilesForVizWithFnV2.py:244), and a file name whose year slice
    is not a number raises `ValueError` at `int(myFile[-26:-22])`
    (ProcessHUDfilesForVizWithFnV6Py36.py:226,
    ProcessHUDfilesForVizWithFnV2.py:235). The model covers only runs
    without such errors: `AllNonEmpty` excludes empty files, and the
    integer parse is not modelled.
