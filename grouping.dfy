/** The runs the fold of the `update` command works on
    (tamagoyaki/main.py, lines 80-115): a row whose bucket differs from the
    previous row's bucket (line 86) opens a new run, any other row joins the
    current one. */
module Grouping {
  import opened Time
  import opened Records

  /** A stretch of consecutive rows that share one bucket. */
  datatype Run = Run(bucket: Instant, trades: seq<Trade>)

  /** Every run holds at least one row. */
  predicate NonEmptyRuns(rs: seq<Run>) {
    forall i :: 0 <= i < |rs| ==> rs[i].trades != []
  }

  /** The runs of the rows, built left to right as the loop meets them. */
  function Runs(ts: seq<Trade>, interval: int): (rs: seq<Run>)
    requires interval != 0 || ts == []
    ensures NonEmptyRuns(rs)
    ensures |rs| <= |ts|
    ensures rs == [] <==> ts == []
  {
    if ts == [] then []
    else
      var rs := Runs(ts[..|ts| - 1], interval);
      var t := ts[|ts| - 1];
      var b := Bucket(t.time, interval);
      if rs != [] && rs[|rs| - 1].bucket == b then
        rs[..|rs| - 1] + [Run(b, rs[|rs| - 1].trades + [t])]
      else
        rs + [Run(b, [t])]
  }

  /** A row in the last run's bucket joins that run. */
  lemma RunsJoin(ts: seq<Trade>, t: Trade, interval: int)
    requires interval != 0
    requires Runs(ts, interval) != []
    requires Runs(ts, interval)[|Runs(ts, interval)| - 1].bucket == Bucket(t.time, interval)
    ensures Runs(ts + [t], interval)
         == Runs(ts, interval)[..|Runs(ts, interval)| - 1]
            + [Run(Bucket(t.time, interval), Runs(ts, interval)[|Runs(ts, interval)| - 1].trades + [t])]
  {
    assert (ts + [t])[..|ts|] == ts;
  }

  /** A row outside the last run's bucket opens a run of its own. */
  lemma RunsOpen(ts: seq<Trade>, t: Trade, interval: int)
    requires interval != 0
    requires Runs(ts, interval) != [] ==>
               Runs(ts, interval)[|Runs(ts, interval)| - 1].bucket != Bucket(t.time, interval)
    ensures Runs(ts + [t], interval) == Runs(ts, interval) + [Run(Bucket(t.time, interval), [t])]
  {
    assert (ts + [t])[..|ts|] == ts;
  }

  /** The rows of the runs, in order. */
  function Flatten(rs: seq<Run>): seq<Trade> {
    if rs == [] then [] else Flatten(rs[..|rs| - 1]) + rs[|rs| - 1].trades
  }

  /** Every row of every run lies in the run's bucket. */
  ghost predicate RowsInRunBucket(rs: seq<Run>, interval: int)
    requires interval != 0
  {
    forall i, j :: 0 <= i < |rs| && 0 <= j < |rs[i].trades| ==>
      Bucket(rs[i].trades[j].time, interval) == rs[i].bucket
  }

  /** Neighbouring runs have different buckets. */
  ghost predicate NeighboursDiffer(rs: seq<Run>) {
    forall i :: 0 <= i < |rs| - 1 ==> rs[i].bucket != rs[i + 1].bucket
  }

  /** `rs` cuts `ts` into maximal runs: the runs put together give back the
      rows, no run is empty, every row of a run lies in the run's bucket, and
      neighbouring runs have different buckets. */
  ghost predicate IsMaximalRunSplit(rs: seq<Run>, ts: seq<Trade>, interval: int)
    requires interval != 0
  {
    Flatten(rs) == ts && NonEmptyRuns(rs) && RowsInRunBucket(rs, interval) && NeighboursDiffer(rs)
  }

  lemma FlattenAppend(rs: seq<Run>, r: Run)
    ensures Flatten(rs + [r]) == Flatten(rs) + r.trades
  {
    assert (rs + [r])[..|rs|] == rs;
  }

  /** Replacing the last run by one with a row more keeps a maximal split
      maximal when the row lies in that run's bucket. */
  lemma ExtendLastRun(front: seq<Run>, last: Run, ts: seq<Trade>, t: Trade, interval: int)
    requires interval != 0
    requires IsMaximalRunSplit(front + [last], ts, interval)
    requires Bucket(t.time, interval) == last.bucket
    ensures IsMaximalRunSplit(front + [Run(last.bucket, last.trades + [t])], ts + [t], interval)
  {
    var rs0 := front + [last];
    var rs := front + [Run(last.bucket, last.trades + [t])];
    FlattenAppend(front, last);
    FlattenAppend(front, Run(last.bucket, last.trades + [t]));
    assert forall i :: 0 <= i < |front| ==> rs[i] == rs0[i];
    assert RowsInRunBucket(rs, interval) by {
      forall i, j | 0 <= i < |rs| && 0 <= j < |rs[i].trades|
        ensures Bucket(rs[i].trades[j].time, interval) == rs[i].bucket
      {
        if i < |front| {
          assert rs[i] == rs0[i];
        } else if j < |last.trades| {
          assert rs[i].trades[j] == rs0[i].trades[j];
        }
      }
    }
    assert NeighboursDiffer(rs) by {
      forall i | 0 <= i < |rs| - 1 ensures rs[i].bucket != rs[i + 1].bucket {
        assert rs[i].bucket == rs0[i].bucket && rs[i + 1].bucket == rs0[i + 1].bucket;
      }
    }
  }

  /** Adding a run of one row keeps a maximal split maximal when the row's
      bucket differs from the last run's. */
  lemma AddSingletonRun(rs0: seq<Run>, ts: seq<Trade>, t: Trade, interval: int)
    requires interval != 0
    requires IsMaximalRunSplit(rs0, ts, interval)
    requires rs0 != [] ==> rs0[|rs0| - 1].bucket != Bucket(t.time, interval)
    ensures IsMaximalRunSplit(rs0 + [Run(Bucket(t.time, interval), [t])], ts + [t], interval)
  {
    var rs := rs0 + [Run(Bucket(t.time, interval), [t])];
    FlattenAppend(rs0, Run(Bucket(t.time, interval), [t]));
    assert forall i :: 0 <= i < |rs0| ==> rs[i] == rs0[i];
  }

  /** The runs the loop builds are a maximal split of its input. */
  lemma {:induction false} RunsAreMaximalSplit(ts: seq<Trade>, interval: int)
    requires interval != 0
    ensures IsMaximalRunSplit(Runs(ts, interval), ts, interval)
  {
    if ts != [] {
      var n := |ts|;
      var init, t := ts[..n - 1], ts[n - 1];
      assert ts == init + [t];
      var rs0 := Runs(init, interval);
      RunsAreMaximalSplit(init, interval);
      var b := Bucket(t.time, interval);
      if rs0 != [] && rs0[|rs0| - 1].bucket == b {
        var m := |rs0|;
        assert rs0 == rs0[..m - 1] + [rs0[m - 1]];
        ExtendLastRun(rs0[..m - 1], rs0[m - 1], init, t, interval);
      } else {
        AddSingletonRun(rs0, init, t, interval);
      }
    }
  }

  lemma FlattenOfEmptyRunsIsEmptyOnlyForNoRuns(rs: seq<Run>)
    requires NonEmptyRuns(rs)
    ensures Flatten(rs) == [] ==> rs == []
  {
    if rs != [] {
      assert |Flatten(rs)| >= |rs[|rs| - 1].trades| > 0;
    }
  }

  /** Without its last run, when that run holds one row, a maximal split is a
      maximal split of the rows before the last. */
  lemma DropSingletonRun(rs: seq<Run>, ts: seq<Trade>, interval: int)
    requires interval != 0
    requires IsMaximalRunSplit(rs, ts, interval)
    requires rs != [] && |rs[|rs| - 1].trades| == 1
    ensures ts != [] && rs[|rs| - 1] == Run(Bucket(ts[|ts| - 1].time, interval), [ts[|ts| - 1]])
    ensures IsMaximalRunSplit(rs[..|rs| - 1], ts[..|ts| - 1], interval)
  {
    var m := |rs|;
    var front, r := rs[..m - 1], rs[m - 1];
    assert rs == front + [r];
    FlattenAppend(front, r);
    assert r.trades == [r.trades[0]];
    assert Bucket(r.trades[0].time, interval) == r.bucket;
    assert ts[..|ts| - 1] == Flatten(front);
    assert forall i :: 0 <= i < m - 1 ==> front[i] == rs[i];
  }

  /** Taking the last row off the last run of a maximal split, when that
      run keeps a row, keeps every row in its run's bucket and neighbouring
      buckets apart. */
  lemma ShrinkKeepsBuckets(front: seq<Run>, r: Run, interval: int)
    requires interval != 0
    requires |r.trades| > 1
    requires RowsInRunBucket(front + [r], interval) && NeighboursDiffer(front + [r])
    ensures RowsInRunBucket(front + [Run(r.bucket, r.trades[..|r.trades| - 1])], interval)
    ensures NeighboursDiffer(front + [Run(r.bucket, r.trades[..|r.trades| - 1])])
  {
    var rs := front + [r];
    var rs' := front + [Run(r.bucket, r.trades[..|r.trades| - 1])];
    var m := |rs|;
    assert forall i :: 0 <= i < m - 1 ==> rs'[i] == rs[i];
    forall i, j | 0 <= i < m && 0 <= j < |rs'[i].trades|
      ensures Bucket(rs'[i].trades[j].time, interval) == rs'[i].bucket
    {
      if i == m - 1 {
        assert rs'[i].trades[j] == rs[i].trades[j];
      }
    }
    forall i | 0 <= i < m - 1 ensures rs'[i].bucket != rs'[i + 1].bucket {
      assert rs'[i + 1].bucket == rs[i + 1].bucket;
    }
  }

  lemma ShrinkFlatten(front: seq<Run>, r: Run, ts: seq<Trade>)
    requires Flatten(front + [r]) == ts && |r.trades| > 1
    ensures ts != [] && r.trades == r.trades[..|r.trades| - 1] + [ts[|ts| - 1]]
    ensures Flatten(front + [Run(r.bucket, r.trades[..|r.trades| - 1])]) == ts[..|ts| - 1]
  {
    var k := |r.trades|;
    FlattenAppend(front, r);
    FlattenAppend(front, Run(r.bucket, r.trades[..k - 1]));
    assert r.trades == r.trades[..k - 1] + [r.trades[k - 1]];
  }

  /** With the last row taken off its last run, when that run holds more than
      one row, a maximal split is a maximal split of the rows before the last. */
  lemma ShrinkLastRun(front: seq<Run>, r: Run, ts: seq<Trade>, interval: int)
    requires interval != 0
    requires IsMaximalRunSplit(front + [r], ts, interval)
    requires |r.trades| > 1
    ensures ts != []
    ensures r.trades == r.trades[..|r.trades| - 1] + [ts[|ts| - 1]]
    ensures Bucket(ts[|ts| - 1].time, interval) == r.bucket
    ensures IsMaximalRunSplit(front + [Run(r.bucket, r.trades[..|r.trades| - 1])], ts[..|ts| - 1], interval)
  {
    var m := |front| + 1;
    var rs := front + [r];
    var rs' := front + [Run(r.bucket, r.trades[..|r.trades| - 1])];
    ShrinkFlatten(front, r, ts);
    assert rs[m - 1].trades[|r.trades| - 1] == ts[|ts| - 1];
    ShrinkKeepsBuckets(front, r, interval);
    assert NonEmptyRuns(rs') by {
      assert forall i :: 0 <= i < m - 1 ==> rs'[i] == rs[i];
    }
  }

  /** The last step of uniqueness when the last run holds one row: the
      row opened that run. */
  lemma SingletonRunIsOpened(rs: seq<Run>, init: seq<Trade>, t: Trade, interval: int)
    requires interval != 0
    requires rs != []
    requires rs[|rs| - 1] == Run(Bucket(t.time, interval), [t])
    requires NeighboursDiffer(rs)
    requires rs[..|rs| - 1] == Runs(init, interval)
    ensures rs == Runs(init + [t], interval)
  {
    var m := |rs|;
    if m > 1 {
      assert rs[..m - 1][m - 2] == rs[m - 2];
    }
    RunsOpen(init, t, interval);
    assert rs == rs[..m - 1] + [rs[m - 1]];
  }

  /** Runs built up to a row, written as their front and last run, grow
      the last run when the next row lies in its bucket. */
  lemma JoinExtends(front: seq<Run>, bucket: Instant, rows: seq<Trade>,
                    init: seq<Trade>, t: Trade, interval: int)
    requires interval != 0
    requires Bucket(t.time, interval) == bucket
    requires Runs(init, interval) == front + [Run(bucket, rows)]
    ensures Runs(init + [t], interval) == front + [Run(bucket, rows + [t])]
  {
    RunsJoin(init, t, interval);
    assert (front + [Run(bucket, rows)])[..|front|] == front;
  }

  /** The last step of uniqueness when the last run holds more rows: the
      last row joined that run. */
  lemma LongerRunIsJoined(rs: seq<Run>, init: seq<Trade>, t: Trade, interval: int)
    requires interval != 0
    requires rs != []
    requires var r := rs[|rs| - 1];
             && |r.trades| > 1
             && r.trades == r.trades[..|r.trades| - 1] + [t]
             && Bucket(t.time, interval) == r.bucket
             && rs[..|rs| - 1] + [Run(r.bucket, r.trades[..|r.trades| - 1])] == Runs(init, interval)
    ensures rs == Runs(init + [t], interval)
  {
    var m := |rs|;
    var r := rs[m - 1];
    JoinExtends(rs[..m - 1], r.bucket, r.trades[..|r.trades| - 1], init, t, interval);
    assert rs == rs[..m - 1] + [r];
  }

  /** A maximal split is unique: it is the one the loop builds. Together with
      RunsAreMaximalSplit this characterises Runs independently of how it is
      computed. */
  lemma {:induction false} MaximalSplitIsRuns(rs: seq<Run>, ts: seq<Trade>, interval: int)
    requires interval != 0
    requires IsMaximalRunSplit(rs, ts, interval)
    ensures rs == Runs(ts, interval)
    decreases |ts|, 1
  {
    FlattenOfEmptyRunsIsEmptyOnlyForNoRuns(rs);
    if rs != [] {
      if |rs[|rs| - 1].trades| == 1 {
        UniqueWithSingletonLastRun(rs, ts, interval);
      } else {
        UniqueWithLongerLastRun(rs, ts, interval);
      }
    }
  }

  /** MaximalSplitIsRuns when the last run holds one row. */
  lemma UniqueWithSingletonLastRun(rs: seq<Run>, ts: seq<Trade>, interval: int)
    requires interval != 0
    requires IsMaximalRunSplit(rs, ts, interval)
    requires rs != [] && |rs[|rs| - 1].trades| == 1
    ensures rs == Runs(ts, interval)
    decreases |ts|, 0
  {
    var n, m := |ts|, |rs|;
    DropSingletonRun(rs, ts, interval);
    MaximalSplitIsRuns(rs[..m - 1], ts[..n - 1], interval);
    SingletonRunIsOpened(rs, ts[..n - 1], ts[n - 1], interval);
    assert ts == ts[..n - 1] + [ts[n - 1]];
  }

  /** MaximalSplitIsRuns when the last run holds more than one row. */
  lemma UniqueWithLongerLastRun(rs: seq<Run>, ts: seq<Trade>, interval: int)
    requires interval != 0
    requires IsMaximalRunSplit(rs, ts, interval)
    requires rs != [] && |rs[|rs| - 1].trades| > 1
    ensures rs == Runs(ts, interval)
    decreases |ts|, 0
  {
    var n, m := |ts|, |rs|;
    var r := rs[m - 1];
    assert rs == rs[..m - 1] + [r];
    ShrinkLastRun(rs[..m - 1], r, ts, interval);
    MaximalSplitIsRuns(rs[..m - 1] + [Run(r.bucket, r.trades[..|r.trades| - 1])], ts[..n - 1], interval);
    LongerRunIsJoined(rs, ts[..n - 1], ts[n - 1], interval);
    assert ts == ts[..n - 1] + [ts[n - 1]];
  }

  /** The first run lies in the first row's bucket and the last run in the
      last row's bucket. */
  lemma {:induction false} EndBuckets(ts: seq<Trade>, interval: int)
    requires interval != 0 && ts != []
    ensures Runs(ts, interval)[0].bucket == Bucket(ts[0].time, interval)
    ensures Runs(ts, interval)[|Runs(ts, interval)| - 1].bucket == Bucket(ts[|ts| - 1].time, interval)
  {
    var n := |ts|;
    if n > 1 {
      var init := ts[..n - 1];
      EndBuckets(init, interval);
      assert init[0] == ts[0];
    }
  }

  /** Number of adjacent pairs of rows whose buckets differ. */
  function BucketChanges(ts: seq<Trade>, interval: int): nat
    requires interval != 0
  {
    if |ts| < 2 then 0
    else (if Bucket(ts[0].time, interval) != Bucket(ts[1].time, interval) then 1 else 0)
         + BucketChanges(ts[1..], interval)
  }

  lemma {:induction false} BucketChangesAppend(ts: seq<Trade>, t: Trade, interval: int)
    requires interval != 0 && ts != []
    ensures BucketChanges(ts + [t], interval)
         == BucketChanges(ts, interval)
            + (if Bucket(ts[|ts| - 1].time, interval) != Bucket(t.time, interval) then 1 else 0)
  {
    if |ts| > 1 {
      assert (ts + [t])[1..] == ts[1..] + [t];
      BucketChangesAppend(ts[1..], t, interval);
    }
  }

  /** A new run starts on the first row and on exactly those rows whose bucket
      differs from the previous row's; a row that returns to an earlier bucket
      after another bucket therefore opens a run of its own. */
  lemma {:induction false} RunCountIsBucketChanges(ts: seq<Trade>, interval: int)
    requires interval != 0 && ts != []
    ensures |Runs(ts, interval)| == 1 + BucketChanges(ts, interval)
  {
    var n := |ts|;
    if n > 1 {
      var init, t := ts[..n - 1], ts[n - 1];
      assert ts == init + [t];
      RunCountIsBucketChanges(init, interval);
      BucketChangesAppend(init, t, interval);
      EndBuckets(init, interval);
    }
  }

  /** Every row of every run is one of the input rows. */
  lemma {:induction false} RunRowsAreInputRows(rs: seq<Run>, i: int, j: int)
    requires 0 <= i < |rs| && 0 <= j < |rs[i].trades|
    ensures rs[i].trades[j] in Flatten(rs)
  {
    var m := |rs|;
    if i < m - 1 {
      RunRowsAreInputRows(rs[..m - 1], i, j);
      assert rs[..m - 1][i] == rs[i];
    }
  }
}
