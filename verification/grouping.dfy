/**
  The functional meaning of the control-break aggregation: a file's records
  split into maximal contiguous runs of equal key, and each run rolls up into
  one row carrying that run's sums and mean.

  The grouping is stated for any key function; the aggregator uses it with
  the state prefix and the county prefix of the GEOID.
 */
module Grouping {
  import opened Metrics

  /** The last element of a non-empty sequence. */
  function Last<T>(s: seq<T>): T
    requires |s| > 0
  {
    s[|s| - 1]
  }

  /** Concatenation of runs, in order. */
  function Flatten(runs: seq<seq<Record>>): seq<Record> {
    if |runs| == 0 then [] else Flatten(runs[..|runs| - 1]) + runs[|runs| - 1]
  }

  /** Every run is non-empty and the runs concatenate back to `recs`. */
  ghost predicate Tiles(runs: seq<seq<Record>>, recs: seq<Record>) {
    && Flatten(runs) == recs
    && (forall j :: 0 <= j < |runs| ==> |runs[j]| > 0)
  }

  /** Every record of a run has the key of the run's first record. */
  ghost predicate Uniform(runs: seq<seq<Record>>, key: Record -> string)
    requires forall j :: 0 <= j < |runs| ==> |runs[j]| > 0
  {
    forall j, k :: 0 <= j < |runs| && 0 <= k < |runs[j]| ==> key(runs[j][k]) == key(runs[j][0])
  }

  /** The key changes from each run to the next. */
  ghost predicate Alternating(runs: seq<seq<Record>>, key: Record -> string)
    requires forall j :: 0 <= j < |runs| ==> |runs[j]| > 0
  {
    forall j :: 0 < j < |runs| ==> key(runs[j - 1][0]) != key(runs[j][0])
  }

  /** `runs` cuts `recs` into non-empty pieces, each of one key, with the key
      changing from each piece to the next: the maximal runs of equal key. */
  ghost predicate IsRunPartition(runs: seq<seq<Record>>, recs: seq<Record>, key: Record -> string) {
    Tiles(runs, recs) && Uniform(runs, key) && Alternating(runs, key)
  }

  /** The maximal runs of equal key in `recs`, built one record at a time:
      a record joins the current run when its key equals the previous
      record's key and starts a new run otherwise. */
  function Runs(recs: seq<Record>, key: Record -> string): (runs: seq<seq<Record>>)
    ensures |runs| == 0 <==> |recs| == 0
    ensures |runs| <= |recs|
    ensures forall j :: 0 <= j < |runs| ==> |runs[j]| > 0
    ensures |recs| > 0 ==> key(Last(runs)[0]) == key(Last(recs))
  {
    if |recs| == 0 then []
    else
      var init := Runs(recs[..|recs| - 1], key);
      var x := recs[|recs| - 1];
      if |init| > 0 && key(recs[|recs| - 2]) == key(x) then
        init[..|init| - 1] + [init[|init| - 1] + [x]]
      else
        init + [[x]]
  }

  /** Whether the last record of a non-empty `recs` continues the run of the
      record before it. */
  predicate Continues(recs: seq<Record>, key: Record -> string)
    requires |recs| > 0
  {
    |recs| > 1 && key(recs[|recs| - 2]) == key(recs[|recs| - 1])
  }

  /** One step of Runs, stated for `pre + [x]`. */
  lemma RunsSnoc(pre: seq<Record>, x: Record, key: Record -> string)
    ensures var init := Runs(pre, key);
      Runs(pre + [x], key) ==
        if Continues(pre + [x], key) then init[..|init| - 1] + [Last(init) + [x]]
        else init + [[x]]
  {
    assert (pre + [x])[..|pre|] == pre;
  }

  lemma FlattenSnoc(runs: seq<seq<Record>>, last: seq<Record>)
    ensures Flatten(runs + [last]) == Flatten(runs) + last
  {
    assert (runs + [last])[..|runs|] == runs;
  }

  /** The runs concatenate back to the file. */
  lemma {:induction false} RunsFlatten(recs: seq<Record>, key: Record -> string)
    ensures Flatten(Runs(recs, key)) == recs
  {
    if |recs| > 0 {
      var pre := recs[..|recs| - 1];
      var x := Last(recs);
      assert pre + [x] == recs;
      RunsFlatten(pre, key);
      RunsSnoc(pre, x, key);
      var init := Runs(pre, key);
      if Continues(recs, key) {
        var front := init[..|init| - 1];
        assert init == front + [Last(init)];
        FlattenSnoc(front, Last(init));
        FlattenSnoc(front, Last(init) + [x]);
      } else {
        FlattenSnoc(init, [x]);
      }
    }
  }

  /** Extending the last run with a record of its key keeps runs uniform. */
  lemma UniformExtend(init: seq<seq<Record>>, x: Record, key: Record -> string)
    requires forall j :: 0 <= j < |init| ==> |init[j]| > 0
    requires |init| > 0 && Uniform(init, key) && key(x) == key(Last(init)[0])
    ensures Uniform(init[..|init| - 1] + [Last(init) + [x]], key)
  {
    var m := |init|;
    var runs := init[..m - 1] + [Last(init) + [x]];
    forall j, k | 0 <= j < |runs| && 0 <= k < |runs[j]|
      ensures key(runs[j][k]) == key(runs[j][0])
    {
      if j < m - 1 {
        assert runs[j] == init[j];
      } else if k < |Last(init)| {
        assert runs[j][k] == init[m - 1][k];
        assert runs[j][0] == init[m - 1][0];
      }
    }
  }

  /** Opening a new run of one record keeps runs uniform. */
  lemma UniformAppend(init: seq<seq<Record>>, x: Record, key: Record -> string)
    requires forall j :: 0 <= j < |init| ==> |init[j]| > 0
    requires Uniform(init, key)
    ensures Uniform(init + [[x]], key)
  {
    var runs := init + [[x]];
    forall j, k | 0 <= j < |runs| && 0 <= k < |runs[j]|
      ensures key(runs[j][k]) == key(runs[j][0])
    {
      if j < |init| {
        assert runs[j] == init[j];
      }
    }
  }

  /** Extending the last run leaves every run's first record, hence the
      alternation of keys, unchanged. */
  lemma AlternatingExtend(init: seq<seq<Record>>, x: Record, key: Record -> string)
    requires forall j :: 0 <= j < |init| ==> |init[j]| > 0
    requires |init| > 0 && Alternating(init, key)
    ensures Alternating(init[..|init| - 1] + [Last(init) + [x]], key)
  {
    var m := |init|;
    var runs := init[..m - 1] + [Last(init) + [x]];
    forall j | 0 <= j < |runs|
      ensures runs[j][0] == init[j][0]
    {
      if j < m - 1 {
        assert runs[j] == init[j];
      } else {
        assert runs[j] == init[m - 1] + [x];
      }
    }
  }

  /** Opening a new run with a different key keeps keys alternating. */
  lemma AlternatingAppend(init: seq<seq<Record>>, x: Record, key: Record -> string)
    requires forall j :: 0 <= j < |init| ==> |init[j]| > 0
    requires Alternating(init, key)
    requires |init| > 0 ==> key(Last(init)[0]) != key(x)
    ensures Alternating(init + [[x]], key)
  {
    var runs := init + [[x]];
    forall j | 0 < j < |runs|
      ensures key(runs[j - 1][0]) != key(runs[j][0])
    {
      assert runs[j - 1] == init[j - 1];
      if j < |init| {
        assert runs[j] == init[j];
      }
    }
  }

  /** Every record of a run has the run's key. */
  lemma {:induction false} RunsUniform(recs: seq<Record>, key: Record -> string)
    ensures Uniform(Runs(recs, key), key)
  {
    if |recs| > 0 {
      var pre := recs[..|recs| - 1];
      var x := Last(recs);
      assert pre + [x] == recs;
      RunsUniform(pre, key);
      RunsSnoc(pre, x, key);
      if Continues(recs, key) {
        assert Last(pre) == recs[|recs| - 2];
        UniformExtend(Runs(pre, key), x, key);
      } else {
        UniformAppend(Runs(pre, key), x, key);
      }
    }
  }

  /** The key changes from each run to the next. */
  lemma {:induction false} RunsAlternate(recs: seq<Record>, key: Record -> string)
    ensures Alternating(Runs(recs, key), key)
  {
    if |recs| > 0 {
      var pre := recs[..|recs| - 1];
      var x := Last(recs);
      assert pre + [x] == recs;
      RunsAlternate(pre, key);
      RunsSnoc(pre, x, key);
      if Continues(recs, key) {
        AlternatingExtend(Runs(pre, key), x, key);
      } else {
        if |pre| > 0 {
          assert Last(pre) == recs[|recs| - 2];
        }
        AlternatingAppend(Runs(pre, key), x, key);
      }
    }
  }

  /** Runs really is the partition into maximal runs. */
  lemma RunsPartition(recs: seq<Record>, key: Record -> string)
    ensures IsRunPartition(Runs(recs, key), recs, key)
  {
    RunsFlatten(recs, key);
    RunsUniform(recs, key);
    RunsAlternate(recs, key);
  }

  /** The last record of a tiled sequence ends the last run. */
  lemma TilesLast(runs: seq<seq<Record>>, recs: seq<Record>)
    requires Tiles(runs, recs) && |runs| > 0
    ensures |recs| > 0 && Last(Last(runs)) == Last(recs)
    ensures Flatten(runs[..|runs| - 1]) + Last(runs) == recs
  {
    assert runs == runs[..|runs| - 1] + [Last(runs)];
    FlattenSnoc(runs[..|runs| - 1], Last(runs));
  }

  /** Dropping a last run of one record leaves a partition of the rest. */
  lemma PartitionDropLast(runs: seq<seq<Record>>, recs: seq<Record>, key: Record -> string)
    requires IsRunPartition(runs, recs, key) && |runs| > 0 && |Last(runs)| == 1
    ensures IsRunPartition(runs[..|runs| - 1], recs[..|recs| - 1], key)
  {
    TilesLast(runs, recs);
    var front := runs[..|runs| - 1];
    assert Flatten(front) == recs[..|recs| - 1];
    assert Uniform(front, key) by {
      forall j, k | 0 <= j < |front| && 0 <= k < |front[j]|
        ensures key(front[j][k]) == key(front[j][0])
      {
        assert front[j] == runs[j];
      }
    }
    assert Alternating(front, key) by {
      forall j | 0 < j < |front|
        ensures key(front[j - 1][0]) != key(front[j][0])
      {
        assert front[j] == runs[j] && front[j - 1] == runs[j - 1];
      }
    }
  }

  /** Dropping the last record of a longer last run leaves a partition of the rest. */
  lemma PartitionShrinkLast(runs: seq<seq<Record>>, recs: seq<Record>, key: Record -> string)
    requires IsRunPartition(runs, recs, key) && |runs| > 0 && |Last(runs)| > 1
    ensures var last := Last(runs);
      IsRunPartition(runs[..|runs| - 1] + [last[..|last| - 1]], recs[..|recs| - 1], key)
  {
    TilesLast(runs, recs);
    var m := |runs|;
    var last := Last(runs);
    var front := runs[..m - 1];
    var runs' := front + [last[..|last| - 1]];
    FlattenSnoc(front, last[..|last| - 1]);
    assert last == last[..|last| - 1] + [Last(recs)];
    assert Flatten(runs') == recs[..|recs| - 1];
    assert Uniform(runs', key) by {
      forall j, k | 0 <= j < |runs'| && 0 <= k < |runs'[j]|
        ensures key(runs'[j][k]) == key(runs'[j][0])
      {
        if j < m - 1 {
          assert runs'[j] == runs[j];
        } else {
          assert runs'[j][k] == runs[j][k];
          assert runs'[j][0] == runs[j][0];
        }
      }
    }
    assert Alternating(runs', key) by {
      forall j | 0 < j < |runs'|
        ensures key(runs'[j - 1][0]) != key(runs'[j][0])
      {
        assert runs'[j - 1][0] == runs[j - 1][0];
        assert runs'[j][0] == runs[j][0];
      }
    }
  }

  /** In a partition into maximal runs, the last record continues the run
      of the record before it exactly when the last run has more than one
      record. */
  lemma PartitionContinues(runs: seq<seq<Record>>, recs: seq<Record>, key: Record -> string)
    requires IsRunPartition(runs, recs, key) && |runs| > 0
    ensures |recs| > 0 && (Continues(recs, key) <==> |Last(runs)| > 1)
  {
    TilesLast(runs, recs);
    var m := |runs|;
    var last := Last(runs);
    var pre := recs[..|recs| - 1];
    assert key(Last(recs)) == key(last[0]) by {
      assert last[|last| - 1] == runs[m - 1][|last| - 1];
    }
    if |last| > 1 {
      assert Last(pre) == last[|last| - 2] == runs[m - 1][|last| - 2];
    } else if m > 1 {
      var front := runs[..m - 1];
      assert Tiles(front, pre);
      TilesLast(front, pre);
      assert Last(front) == runs[m - 2];
      assert Last(pre) == runs[m - 2][|runs[m - 2]| - 1];
    } else {
      assert recs == Flatten(runs[..0]) + last;
    }
  }

  /** The maximal runs are unique: any partition with the properties of
      IsRunPartition is the one Runs computes. */
  lemma {:induction false} RunPartitionUnique(runs: seq<seq<Record>>, recs: seq<Record>, key: Record -> string)
    requires IsRunPartition(runs, recs, key)
    ensures runs == Runs(recs, key)
    decreases |recs|, 1
  {
    if |runs| == 0 {
      assert recs == Flatten(runs);
    } else if |Last(runs)| == 1 {
      UniqueWithSingletonLast(runs, recs, key);
    } else {
      UniqueWithLongerLast(runs, recs, key);
    }
  }

  /** Uniqueness when the last run holds only the last record, which then
      starts a run of its own. */
  lemma {:induction false} UniqueWithSingletonLast(runs: seq<seq<Record>>, recs: seq<Record>, key: Record -> string)
    requires IsRunPartition(runs, recs, key) && |runs| > 0 && |Last(runs)| == 1
    ensures runs == Runs(recs, key)
    decreases |recs|, 0
  {
    PartitionContinues(runs, recs, key);
    TilesLast(runs, recs);
    PartitionDropLast(runs, recs, key);
    var pre := recs[..|recs| - 1];
    RunPartitionUnique(runs[..|runs| - 1], pre, key);
    assert recs == pre + [Last(recs)];
    assert Last(runs) == [Last(recs)];
    StartRunStep(runs, pre, Last(recs), key);
  }

  /** A last run holding only `x`, after the runs of `pre`, is what Runs
      builds when `x` starts a new run. */
  lemma StartRunStep(runs: seq<seq<Record>>, pre: seq<Record>, x: Record, key: Record -> string)
    requires |runs| > 0 && Last(runs) == [x]
    requires !Continues(pre + [x], key)
    requires runs[..|runs| - 1] == Runs(pre, key)
    ensures runs == Runs(pre + [x], key)
  {
    RunsSnoc(pre, x, key);
    assert runs == runs[..|runs| - 1] + [Last(runs)];
  }

  /** Uniqueness when the last record continues a longer last run. */
  lemma {:induction false} UniqueWithLongerLast(runs: seq<seq<Record>>, recs: seq<Record>, key: Record -> string)
    requires IsRunPartition(runs, recs, key) && |runs| > 0 && |Last(runs)| > 1
    ensures runs == Runs(recs, key)
    decreases |recs|, 0
  {
    PartitionContinues(runs, recs, key);
    TilesLast(runs, recs);
    PartitionShrinkLast(runs, recs, key);
    var last := Last(runs);
    var pre := recs[..|recs| - 1];
    RunPartitionUnique(runs[..|runs| - 1] + [last[..|last| - 1]], pre, key);
    assert recs == pre + [Last(recs)];
    ExtendRunStep(runs, pre, Last(recs), key);
  }

  /** Runs ending in `last`, after runs that end in `last` without its
      final record `x`, are what Runs builds when `x` continues the run. */
  lemma ExtendRunStep(runs: seq<seq<Record>>, pre: seq<Record>, x: Record, key: Record -> string)
    requires |runs| > 0 && |Last(runs)| > 1 && Last(Last(runs)) == x
    requires Continues(pre + [x], key)
    requires var last := Last(runs);
      runs[..|runs| - 1] + [last[..|last| - 1]] == Runs(pre, key)
    ensures runs == Runs(pre + [x], key)
  {
    var m := |runs|;
    var last := Last(runs);
    var front := runs[..m - 1];
    var runs' := front + [last[..|last| - 1]];
    RunsSnoc(pre, x, key);
    assert runs'[..m - 1] == front;
    assert Last(runs') + [x] == last;
    assert runs == front + [last];
  }

  /** Number of positions where the key of a record differs from the key of
      the record before it. */
  function Breaks(recs: seq<Record>, key: Record -> string): nat {
    if |recs| <= 1 then 0
    else Breaks(recs[..|recs| - 1], key) + (if key(recs[|recs| - 2]) != key(recs[|recs| - 1]) then 1 else 0)
  }

  /** A non-empty file has one run more than it has key changes. */
  lemma {:induction false} RunCount(recs: seq<Record>, key: Record -> string)
    requires |recs| > 0
    ensures |Runs(recs, key)| == Breaks(recs, key) + 1
  {
    if |recs| > 1 {
      RunCount(recs[..|recs| - 1], key);
    }
  }

  /** `coarse` never separates two records that `fine` puts together, as
      the state prefix of a GEOID never separates two records of one county. */
  ghost predicate Coarser(coarse: Record -> string, fine: Record -> string) {
    forall a, b :: fine(a) == fine(b) ==> coarse(a) == coarse(b)
  }

  /** A change of the coarse key is always a change of the fine key, so the
      coarse key changes no more often. */
  lemma {:induction false} BreaksMonotone(recs: seq<Record>, coarse: Record -> string, fine: Record -> string)
    requires Coarser(coarse, fine)
    ensures Breaks(recs, coarse) <= Breaks(recs, fine)
  {
    if |recs| > 1 {
      BreaksMonotone(recs[..|recs| - 1], coarse, fine);
    }
  }

  /** A coarser key never yields more runs. */
  lemma {:induction false} FewerCoarseRuns(recs: seq<Record>, coarse: Record -> string, fine: Record -> string)
    requires Coarser(coarse, fine)
    ensures |Runs(recs, coarse)| <= |Runs(recs, fine)|
  {
    if |recs| > 0 {
      RunCount(recs, coarse);
      RunCount(recs, fine);
      BreaksMonotone(recs, coarse, fine);
    }
  }

  /** The key of each run, in order. */
  function RunKeys(runs: seq<seq<Record>>, key: Record -> string): (keys: seq<string>)
    requires forall j :: 0 <= j < |runs| ==> |runs[j]| > 0
    ensures |keys| == |runs|
  {
    seq(|runs|, j requires 0 <= j < |runs| => key(runs[j][0]))
  }

  /** The keys present among the records. */
  function RecordKeys(recs: seq<Record>, key: Record -> string): set<string> {
    set r | r in recs :: key(r)
  }

  /** Extending the last run leaves the run keys unchanged. */
  lemma RunKeysExtend(init: seq<seq<Record>>, x: Record, key: Record -> string)
    requires forall j :: 0 <= j < |init| ==> |init[j]| > 0
    requires |init| > 0
    ensures RunKeys(init[..|init| - 1] + [Last(init) + [x]], key) == RunKeys(init, key)
  {
    var m := |init|;
    var runs' := init[..m - 1] + [Last(init) + [x]];
    forall j | 0 <= j < m
      ensures runs'[j][0] == init[j][0]
    {
      if j < m - 1 {
        assert runs'[j] == init[j];
      } else {
        assert runs'[j] == Last(init) + [x];
      }
    }
  }

  /** Opening a new run appends its key. */
  lemma RunKeysAppend(init: seq<seq<Record>>, x: Record, key: Record -> string)
    requires forall j :: 0 <= j < |init| ==> |init[j]| > 0
    ensures RunKeys(init + [[x]], key) == RunKeys(init, key) + [key(x)]
  {
  }

  /** One step of RunKeys: a continuing record adds no key, a new run adds its key. */
  lemma RunKeysSnoc(pre: seq<Record>, x: Record, key: Record -> string)
    ensures RunKeys(Runs(pre + [x], key), key) ==
      if Continues(pre + [x], key) then RunKeys(Runs(pre, key), key) else RunKeys(Runs(pre, key), key) + [key(x)]
  {
    RunsSnoc(pre, x, key);
    if Continues(pre + [x], key) {
      RunKeysExtend(Runs(pre, key), x, key);
    } else {
      RunKeysAppend(Runs(pre, key), x, key);
    }
  }

  lemma RecordKeysSnoc(pre: seq<Record>, x: Record, key: Record -> string)
    ensures RecordKeys(pre + [x], key) == RecordKeys(pre, key) + {key(x)}
  {
    var recs := pre + [x];
    forall k | k in RecordKeys(recs, key)
      ensures k in RecordKeys(pre, key) + {key(x)}
    {
      var r :| r in recs && key(r) == k;
      if r != x {
        assert r in pre;
      }
    }
    forall k | k in RecordKeys(pre, key)
      ensures k in RecordKeys(recs, key)
    {
      var r :| r in pre && key(r) == k;
      assert r in recs;
    }
    assert x in recs;
  }

  /** The elements of a sequence of keys, as a set. */
  function Elements(ks: seq<string>): set<string> {
    set k | k in ks
  }

  lemma ElementsSnoc(ks: seq<string>, k: string)
    ensures Elements(ks + [k]) == Elements(ks) + {k}
  {
  }

  /** The runs carry exactly the keys present in the file, no more and no fewer. */
  lemma {:induction false} RunKeysAreRecordKeys(recs: seq<Record>, key: Record -> string)
    ensures Elements(RunKeys(Runs(recs, key), key)) == RecordKeys(recs, key)
  {
    if |recs| > 0 {
      var pre := recs[..|recs| - 1];
      var x := Last(recs);
      assert recs == pre + [x];
      RunKeysAreRecordKeys(pre, key);
      RunKeysSnoc(pre, x, key);
      RecordKeysSnoc(pre, x, key);
      var ks := RunKeys(Runs(pre, key), key);
      if Continues(recs, key) {
        assert Last(pre) == recs[|recs| - 2];
        assert key(x) == ks[|ks| - 1];
      } else {
        ElementsSnoc(ks, key(x));
      }
    }
  }

  /** Records of one key sit together: no other key occurs between two
      records of the same key. */
  ghost predicate Contiguous(recs: seq<Record>, key: Record -> string) {
    forall i, j, k :: 0 <= i < j < k < |recs| && key(recs[i]) == key(recs[k]) ==> key(recs[j]) == key(recs[i])
  }

  ghost predicate Distinct(ks: seq<string>) {
    forall a, b :: 0 <= a < b < |ks| ==> ks[a] != ks[b]
  }

  lemma ContiguousPrefix(recs: seq<Record>, key: Record -> string)
    requires |recs| > 0 && Contiguous(recs, key)
    ensures Contiguous(recs[..|recs| - 1], key)
  {
    var pre := recs[..|recs| - 1];
    forall i, j, k | 0 <= i < j < k < |pre| && key(pre[i]) == key(pre[k])
      ensures key(pre[j]) == key(pre[i])
    {
      assert pre[i] == recs[i] && pre[j] == recs[j] && pre[k] == recs[k];
    }
  }

  /** Under contiguity, a record that starts a new run has a key not seen before. */
  lemma NewRunFreshKey(recs: seq<Record>, key: Record -> string)
    requires |recs| > 0 && Contiguous(recs, key) && !Continues(recs, key)
    ensures key(Last(recs)) !in RecordKeys(recs[..|recs| - 1], key)
  {
    var n := |recs|;
    var pre := recs[..n - 1];
    forall r | r in pre
      ensures key(r) != key(Last(recs))
    {
      var p :| 0 <= p < |pre| && pre[p] == r;
      assert recs[p] == r;
      assert key(recs[n - 2]) != key(recs[n - 1]);
    }
  }

  /** When every key's records are contiguous, no key has two runs. */
  lemma {:induction false} DistinctRunKeys(recs: seq<Record>, key: Record -> string)
    requires Contiguous(recs, key)
    ensures Distinct(RunKeys(Runs(recs, key), key))
  {
    if |recs| > 0 {
      var pre := recs[..|recs| - 1];
      var x := Last(recs);
      assert recs == pre + [x];
      ContiguousPrefix(recs, key);
      DistinctRunKeys(pre, key);
      RunKeysSnoc(pre, x, key);
      if !Continues(recs, key) {
        NewRunFreshKey(recs, key);
        RunKeysAreRecordKeys(pre, key);
        var ks := RunKeys(Runs(pre, key), key);
        var ks' := ks + [key(x)];
        forall a, b | 0 <= a < b < |ks'|
          ensures ks'[a] != ks'[b]
        {
          if b == |ks| {
            assert ks'[a] == ks[a] && ks[a] in Elements(ks);
          }
        }
      }
    }
  }

  lemma {:induction false} DistinctCard(ks: seq<string>)
    requires Distinct(ks)
    ensures |Elements(ks)| == |ks|
  {
    if |ks| > 0 {
      var pre := ks[..|ks| - 1];
      var x := ks[|ks| - 1];
      assert ks == pre + [x];
      assert Distinct(pre);
      DistinctCard(pre);
      ElementsSnoc(pre, x);
      assert x !in Elements(pre);
    }
  }

  /** With contiguous keys there is exactly one run per distinct key present. */
  lemma OneRunPerKey(recs: seq<Record>, key: Record -> string)
    requires Contiguous(recs, key)
    ensures Distinct(RunKeys(Runs(recs, key), key))
    ensures |Runs(recs, key)| == |RecordKeys(recs, key)|
  {
    DistinctRunKeys(recs, key);
    RunKeysAreRecordKeys(recs, key);
    DistinctCard(RunKeys(Runs(recs, key), key));
  }

  /** The row one run rolls up into: tagged with the run's key, carrying its
      sums and its mean AVG_VAC_R. */
  function RunRow(run: seq<Record>, key: Record -> string, period: string): Row
    requires |run| > 0
  {
    Flush(Accumulate(run), period, key(run[0]))
  }

  /** One row per run, in run order. */
  function RowsOf(runs: seq<seq<Record>>, key: Record -> string, period: string): (rows: seq<Row>)
    requires forall j :: 0 <= j < |runs| ==> |runs[j]| > 0
    ensures |rows| == |runs|
  {
    if |runs| == 0 then []
    else RowsOf(runs[..|runs| - 1], key, period) + [RunRow(runs[|runs| - 1], key, period)]
  }

  /** The j-th row is the row of the j-th run. */
  lemma {:induction false} RowsOfIndex(runs: seq<seq<Record>>, key: Record -> string, period: string, j: nat)
    requires forall j :: 0 <= j < |runs| ==> |runs[j]| > 0
    requires j < |runs|
    ensures RowsOf(runs, key, period)[j] == RunRow(runs[j], key, period)
  {
    if j < |runs| - 1 {
      var front := runs[..|runs| - 1];
      assert front[j] == runs[j];
      RowsOfIndex(front, key, period, j);
    }
  }

  /** Field-by-field sum of the count metrics of a sequence of rows. */
  function SumRows(rows: seq<Row>): Counts {
    if |rows| == 0 then Zero else Plus(SumRows(rows[..|rows| - 1]), rows[|rows| - 1].counts)
  }

  lemma {:induction false} RowsOfFlatten(runs: seq<seq<Record>>, key: Record -> string, period: string)
    requires forall j :: 0 <= j < |runs| ==> |runs[j]| > 0
    ensures SumRows(RowsOf(runs, key, period)) == TotalCounts(Flatten(runs))
  {
    if |runs| > 0 {
      var m := |runs|;
      var front := runs[..m - 1];
      var last := runs[m - 1];
      RowsOfFlatten(front, key, period);
      assert RowsOf(runs, key, period)[..m - 1] == RowsOf(front, key, period);
      TotalCountsAppend(Flatten(front), last);
      AccumulateSums(last);
    }
  }

  /** Rolling up by runs loses and duplicates nothing: the rows' sums add up
      to the file's totals. */
  lemma RowsConserveTotals(recs: seq<Record>, key: Record -> string, period: string)
    ensures SumRows(RowsOf(Runs(recs, key), key, period)) == TotalCounts(recs)
  {
    RunsPartition(recs, key);
    RowsOfFlatten(Runs(recs, key), key, period);
  }

  lemma RowsOfSnoc(runs: seq<seq<Record>>, run: seq<Record>, key: Record -> string, period: string)
    requires forall j :: 0 <= j < |runs| ==> |runs[j]| > 0
    requires |run| > 0
    ensures RowsOf(runs + [run], key, period) == RowsOf(runs, key, period) + [RunRow(run, key, period)]
  {
    assert (runs + [run])[..|runs|] == runs;
  }

  /** Each level's rows are the roll-ups of the maximal runs of its key: one
      row per run, in order, tagged with the run's key, carrying the sums of
      exactly the run's records and the mean of their AVG_VAC_R. */
  lemma RowsOfRuns(recs: seq<Record>, key: Record -> string, period: string)
    ensures var runs := Runs(recs, key);
      var rows := RowsOf(runs, key, period);
      && IsRunPartition(runs, recs, key)
      && |rows| == |runs|
      && forall j :: 0 <= j < |rows| ==>
           && rows[j].period == period
           && rows[j].geoId == key(runs[j][0])
           && rows[j].counts == TotalCounts(runs[j])
           && rows[j].avgDaysVacant == AvgTotal(runs[j]) / (|runs[j]| as real)
  {
    RunsPartition(recs, key);
    var runs := Runs(recs, key);
    forall j | 0 <= j < |runs|
      ensures RowsOf(runs, key, period)[j] == RunRow(runs[j], key, period)
      ensures RunRow(runs[j], key, period).counts == TotalCounts(runs[j])
      ensures RunRow(runs[j], key, period).avgDaysVacant == AvgTotal(runs[j]) / (|runs[j]| as real)
    {
      RowsOfIndex(runs, key, period, j);
      GroupRow(runs[j], period, key(runs[j][0]));
    }
  }

  /** The records of `recs` whose key is `k`, in file order. */
  function Filter(recs: seq<Record>, key: Record -> string, k: string): seq<Record> {
    if |recs| == 0 then []
    else Filter(recs[..|recs| - 1], key, k) + (if key(Last(recs)) == k then [Last(recs)] else [])
  }

  /** Selecting from a concatenation selects from each part. */
  lemma {:induction false} FilterAppend(a: seq<Record>, b: seq<Record>, key: Record -> string, k: string)
    ensures Filter(a + b, key, k) == Filter(a, key, k) + Filter(b, key, k)
  {
    if |b| == 0 {
      assert a + b == a;
    } else {
      var pre := b[..|b| - 1];
      assert (a + b)[..|a + b| - 1] == a + pre;
      FilterAppend(a, pre, key, k);
    }
  }

  /** A stretch of records all of key `c` is kept whole when `c` is selected
      and dropped whole otherwise. */
  lemma {:induction false} FilterConstant(s: seq<Record>, key: Record -> string, k: string, c: string)
    requires forall i :: 0 <= i < |s| ==> key(s[i]) == c
    ensures Filter(s, key, k) == if c == k then s else []
  {
    if |s| > 0 {
      var pre := s[..|s| - 1];
      var x := Last(s);
      assert forall i :: 0 <= i < |pre| ==> pre[i] == s[i];
      FilterConstant(pre, key, k, c);
      assert key(x) == c;
      if c == k {
        assert s == pre + [x];
      }
    }
  }

  /** Dropping the last run keeps the runs non-empty and uniform. */
  lemma UniformFront(runs: seq<seq<Record>>, key: Record -> string)
    requires |runs| > 0
    requires forall j :: 0 <= j < |runs| ==> |runs[j]| > 0
    requires Uniform(runs, key)
    ensures var front := runs[..|runs| - 1];
      && (forall j :: 0 <= j < |front| ==> front[j] == runs[j])
      && (forall j :: 0 <= j < |front| ==> |front[j]| > 0)
      && Uniform(front, key)
  {
  }

  /** Selecting from uniform runs: what the earlier runs hold, then the last
      run whole if it has key `k`. */
  lemma FilterLastRun(runs: seq<seq<Record>>, key: Record -> string, k: string)
    requires |runs| > 0
    requires forall j :: 0 <= j < |runs| ==> |runs[j]| > 0
    requires Uniform(runs, key)
    ensures var last := runs[|runs| - 1];
      Filter(Flatten(runs), key, k)
        == Filter(Flatten(runs[..|runs| - 1]), key, k) + (if key(last[0]) == k then last else [])
  {
    var last := runs[|runs| - 1];
    FilterAppend(Flatten(runs[..|runs| - 1]), last, key, k);
    FilterConstant(last, key, k, key(last[0]));
  }

  /** Uniform runs none of which has key `k` hold no record of key `k`. */
  lemma {:induction false} FilterOtherRuns(runs: seq<seq<Record>>, key: Record -> string, k: string)
    requires forall j :: 0 <= j < |runs| ==> |runs[j]| > 0
    requires Uniform(runs, key)
    requires forall j :: 0 <= j < |runs| ==> key(runs[j][0]) != k
    ensures Filter(Flatten(runs), key, k) == []
  {
    if |runs| > 0 {
      UniformFront(runs, key);
      FilterOtherRuns(runs[..|runs| - 1], key, k);
      FilterLastRun(runs, key, k);
    }
  }

  /** Dropping the last run keeps the run keys distinct. */
  lemma DistinctFront(runs: seq<seq<Record>>, key: Record -> string)
    requires |runs| > 0
    requires forall j :: 0 <= j < |runs| ==> |runs[j]| > 0
    requires Distinct(RunKeys(runs, key))
    ensures Distinct(RunKeys(runs[..|runs| - 1], key))
  {
    var front := runs[..|runs| - 1];
    forall a, b | 0 <= a < b < |front|
      ensures RunKeys(front, key)[a] != RunKeys(front, key)[b]
    {
      assert RunKeys(front, key)[a] == RunKeys(runs, key)[a];
      assert RunKeys(front, key)[b] == RunKeys(runs, key)[b];
    }
  }

  /** When no two uniform runs share a key, the records carrying the key of
      run j are exactly run j's records. */
  lemma {:induction false} FilterRuns(runs: seq<seq<Record>>, key: Record -> string, j: nat)
    requires forall j :: 0 <= j < |runs| ==> |runs[j]| > 0
    requires Uniform(runs, key)
    requires Distinct(RunKeys(runs, key))
    requires j < |runs|
    ensures Filter(Flatten(runs), key, key(runs[j][0])) == runs[j]
  {
    var m := |runs|;
    var front := runs[..m - 1];
    var k := key(runs[j][0]);
    UniformFront(runs, key);
    FilterLastRun(runs, key, k);
    assert RunKeys(runs, key)[j] == k;
    if j == m - 1 {
      forall i | 0 <= i < |front|
        ensures key(front[i][0]) != k
      {
        assert RunKeys(runs, key)[i] == key(front[i][0]);
      }
      FilterOtherRuns(front, key, k);
    } else {
      assert RunKeys(runs, key)[m - 1] == key(runs[m - 1][0]);
      DistinctFront(runs, key);
      FilterRuns(front, key, j);
    }
  }

  /** When every key's records are contiguous, the rows correspond one to one
      with the keys present in the file: their GEOIDs are exactly those keys
      and no two rows share one. */
  lemma ContiguousRowKeys(recs: seq<Record>, key: Record -> string, period: string)
    requires Contiguous(recs, key)
    ensures var rows := RowsOf(Runs(recs, key), key, period);
      && |rows| == |RecordKeys(recs, key)|
      && (set j | 0 <= j < |rows| :: rows[j].geoId) == RecordKeys(recs, key)
      && (forall a, b :: 0 <= a < b < |rows| ==> rows[a].geoId != rows[b].geoId)
  {
    var runs := Runs(recs, key);
    var rows := RowsOf(runs, key, period);
    RowsOfRuns(recs, key, period);
    OneRunPerKey(recs, key);
    RunKeysAreRecordKeys(recs, key);
    var ks := RunKeys(runs, key);
    forall j | 0 <= j < |rows|
      ensures rows[j].geoId == ks[j]
    {
    }
    RowGeoIds(rows, ks);
  }

  /** Rows tagged position by position with the keys `ks` carry exactly the
      elements of `ks` as GEOIDs. */
  lemma RowGeoIds(rows: seq<Row>, ks: seq<string>)
    requires |rows| == |ks|
    requires forall j :: 0 <= j < |rows| ==> rows[j].geoId == ks[j]
    ensures (set j | 0 <= j < |rows| :: rows[j].geoId) == Elements(ks)
  {
    forall g | g in Elements(ks)
      ensures g in (set j | 0 <= j < |rows| :: rows[j].geoId)
    {
      var j :| 0 <= j < |ks| && ks[j] == g;
      assert rows[j].geoId == g;
    }
  }

  /** When every key's records are contiguous, each row rolls up every record
      of its key, wherever it sits in the file: the sums over all of them and
      the mean of their AVG_VAC_R. */
  lemma ContiguousRowSums(recs: seq<Record>, key: Record -> string, period: string)
    requires Contiguous(recs, key)
    ensures var rows := RowsOf(Runs(recs, key), key, period);
      forall j :: 0 <= j < |rows| ==>
        var sel := Filter(recs, key, rows[j].geoId);
        && |sel| > 0
        && rows[j].counts == TotalCounts(sel)
        && rows[j].avgDaysVacant == AvgTotal(sel) / (|sel| as real)
  {
    var runs := Runs(recs, key);
    var rows := RowsOf(runs, key, period);
    RowsOfRuns(recs, key, period);
    DistinctRunKeys(recs, key);
    forall j | 0 <= j < |rows|
      ensures Filter(recs, key, rows[j].geoId) == runs[j]
    {
      FilterRuns(runs, key, j);
    }
  }
}
