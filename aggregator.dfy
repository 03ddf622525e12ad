/** The tick-to-candle fold of the `update` command
    (tamagoyaki/main.py, lines 73-126), as written: the first row emits an
    all-zero candle, every candle emitted inside the loop is stamped with the
    NEW bucket but carries the PREVIOUS run's values, and the candle appended
    after the loop repeats the last bucket. */
module Aggregator {
  import opened Wrappers
  import opened Time
  import opened Records
  import opened Grouping

  /** The result of one day's fold: the candle list, or the ZeroDivisionError
      that `dt.second % interval_sec` raises on the first row when the
      interval is zero. */
  datatype Outcome = Done(candles: seq<Candle>) | ZeroDivisionError

  /** `pdt` once the loop has built the runs `rs`. */
  function LastBucket(rs: seq<Run>): Option<Instant> {
    if rs == [] then None else Some(rs[|rs| - 1].bucket)
  }

  /** The seven accumulators once the loop has built the runs `rs`. */
  function Accumulators(rs: seq<Run>): Ohlcv
    requires NonEmptyRuns(rs)
  {
    if rs == [] then Zero else Summary(rs[|rs| - 1].trades)
  }

  /** The candles appended inside the loop (lines 88-97): each run, when it
      opens, appends a candle stamped with its own bucket and carrying the
      accumulators of the run before it. */
  function InLoopCandles(rs: seq<Run>): (cs: seq<Candle>)
    requires NonEmptyRuns(rs)
    ensures |cs| == |rs|
  {
    if rs == [] then []
    else
      var front := rs[..|rs| - 1];
      InLoopCandles(front) + [Candle(Some(rs[|rs| - 1].bucket), Accumulators(front))]
  }

  /** The i-th in-loop candle is stamped with run i's bucket and carries run
      i-1's values; the first carries the initial zeros. */
  lemma {:induction false} InLoopCandleAt(rs: seq<Run>, i: int)
    requires NonEmptyRuns(rs) && 0 <= i < |rs|
    ensures InLoopCandles(rs)[i]
         == Candle(Some(rs[i].bucket), if i == 0 then Zero else Summary(rs[i - 1].trades))
  {
    var front := rs[..|rs| - 1];
    if i < |rs| - 1 {
      InLoopCandleAt(front, i);
      assert front[i] == rs[i];
      if i > 0 {
        assert front[i - 1] == rs[i - 1];
      }
    } else if i > 0 {
      assert front[|front| - 1] == rs[i - 1];
    }
  }

  /** The candle appended after the loop (lines 117-126). */
  function FinalCandle(rs: seq<Run>): Candle
    requires NonEmptyRuns(rs)
  {
    Candle(LastBucket(rs), Accumulators(rs))
  }

  /** The candle list the fold returns for one day's rows. */
  function Candles(ts: seq<Trade>, interval: int): seq<Candle>
    requires interval != 0 || ts == []
  {
    var rs := Runs(ts, interval);
    InLoopCandles(rs) + [FinalCandle(rs)]
  }

  lemma InLoopCandlesNewRun(rs: seq<Run>, r: Run)
    requires NonEmptyRuns(rs) && r.trades != []
    ensures NonEmptyRuns(rs + [r])
    ensures InLoopCandles(rs + [r])
         == InLoopCandles(rs) + [Candle(Some(r.bucket), Accumulators(rs))]
  {
    assert (rs + [r])[..|rs|] == rs;
  }

  lemma InLoopCandlesGrowLastRun(front: seq<Run>, last: Run, t: Trade)
    requires NonEmptyRuns(front) && last.trades != []
    ensures NonEmptyRuns(front + [Run(last.bucket, last.trades + [t])])
    ensures InLoopCandles(front + [Run(last.bucket, last.trades + [t])])
         == InLoopCandles(front + [last])
  {
    InLoopCandlesNewRun(front, Run(last.bucket, last.trades + [t]));
    InLoopCandlesNewRun(front, last);
  }

  /** The loop's variables after the rows `ts`: the candles appended so far,
      `pdt` and the seven accumulators. */
  ghost predicate FoldState(ts: seq<Trade>, interval: int, candles: seq<Candle>,
                            pdt: Option<Instant>, acc: Ohlcv)
    requires interval != 0 || ts == []
  {
    var rs := Runs(ts, interval);
    candles == InLoopCandles(rs) && pdt == LastBucket(rs) && acc == Accumulators(rs)
  }

  /** Lines 86-108: a row whose bucket differs from `pdt` appends a candle
      stamped with the row's bucket and carrying the accumulators, then
      restarts them from the row. */
  lemma OpenRunStep(ts: seq<Trade>, t: Trade, interval: int, candles: seq<Candle>,
                    pdt: Option<Instant>, acc: Ohlcv)
    requires interval != 0
    requires FoldState(ts, interval, candles, pdt, acc)
    requires Some(Bucket(t.time, interval)) != pdt
    ensures FoldState(ts + [t], interval, candles + [Candle(Some(Bucket(t.time, interval)), acc)],
                      Some(Bucket(t.time, interval)), Restart(t))
  {
    var rs := Runs(ts, interval);
    var r := Run(Bucket(t.time, interval), [t]);
    RunsOpen(ts, t, interval);
    assert Runs(ts + [t], interval) == rs + [r];
    InLoopCandlesNewRun(rs, r);
    assert Summary(r.trades) == Restart(t);
    assert LastBucket(rs + [r]) == Some(r.bucket);
    assert Accumulators(rs + [r]) == Restart(t);
  }

  /** Lines 110-115: a row in the bucket `pdt` is folded into the
      accumulators and appends nothing. */
  lemma JoinRunStep(ts: seq<Trade>, t: Trade, interval: int, candles: seq<Candle>,
                    pdt: Option<Instant>, acc: Ohlcv)
    requires interval != 0
    requires FoldState(ts, interval, candles, pdt, acc)
    requires Some(Bucket(t.time, interval)) == pdt
    ensures FoldState(ts + [t], interval, candles, pdt, Step(acc, t))
  {
    var rs := Runs(ts, interval);
    var m := |rs|;
    var front, last := rs[..m - 1], rs[m - 1];
    assert rs == front + [last];
    RunsJoin(ts, t, interval);
    InLoopCandlesGrowLastRun(front, last, t);
    assert (last.trades + [t])[..|last.trades|] == last.trades;
  }

  /** The open step of the loop's body, stated on the prefix `trades[..i]`
      and the seven variables as the body resets them. */
  lemma OpenRowStep(trades: seq<Trade>, i: int, interval: int, candles: seq<Candle>,
                    pdt: Option<Instant>, acc: Ohlcv)
    requires interval != 0 && 0 <= i < |trades|
    requires FoldState(trades[..i], interval, candles, pdt, acc)
    requires Some(Bucket(trades[i].time, interval)) != pdt
    ensures var t := trades[i];
            FoldState(trades[..i + 1], interval, candles + [Candle(Some(Bucket(t.time, interval)), acc)],
                      Some(Bucket(t.time, interval)),
                      Ohlcv(t.price, t.price, t.price, t.price, t.size, BuyShare(t), SellShare(t)))
  {
    var t := trades[i];
    assert trades[..i + 1] == trades[..i] + [t];
    OpenRunStep(trades[..i], t, interval, candles, pdt, acc);
    assert Restart(t) == Ohlcv(t.price, t.price, t.price, t.price, t.size, BuyShare(t), SellShare(t));
  }

  /** The join step of the loop's body, stated on the prefix `trades[..i]`
      and the seven variables as the body updates them. */
  lemma JoinRowStep(trades: seq<Trade>, i: int, interval: int, candles: seq<Candle>,
                    pdt: Option<Instant>, acc: Ohlcv)
    requires interval != 0 && 0 <= i < |trades|
    requires FoldState(trades[..i], interval, candles, pdt, acc)
    requires Some(Bucket(trades[i].time, interval)) == pdt
    ensures var t := trades[i];
            FoldState(trades[..i + 1], interval, candles, pdt,
                      Ohlcv(acc.open, PyMax(acc.high, t.price), PyMin(acc.low, t.price), t.price,
                            acc.volume + t.size, acc.buyVolume + BuyShare(t), acc.sellVolume + SellShare(t)))
  {
    var t := trades[i];
    assert trades[..i + 1] == trades[..i] + [t];
    JoinRunStep(trades[..i], t, interval, candles, pdt, acc);
    assert Step(acc, t)
        == Ohlcv(acc.open, PyMax(acc.high, t.price), PyMin(acc.low, t.price), t.price,
                 acc.volume + t.size, acc.buyVolume + BuyShare(t), acc.sellVolume + SellShare(t));
  }

  /** Lines 117-126: after the last row the final candle is appended. */
  lemma FinalStep(trades: seq<Trade>, interval: int, candles: seq<Candle>,
                  pdt: Option<Instant>, acc: Ohlcv)
    requires interval != 0 || trades == []
    requires FoldState(trades[..|trades|], interval, candles, pdt, acc)
    ensures candles + [Candle(pdt, acc)] == Candles(trades, interval)
  {
    assert trades[..|trades|] == trades;
  }

  /** One day's fold, lines 73-126, with the loop's variables. The result is
      the candle list Candles describes, or the error a zero interval raises
      on the first row. */
  method Aggregate(trades: seq<Trade>, interval: int) returns (r: Outcome)
    ensures r.ZeroDivisionError? <==> interval == 0 && trades != []
    ensures r.Done? ==> r.candles == Candles(trades, interval)
  {
    var candles: seq<Candle> := [];
    var pdt: Option<Instant> := None;
    var op, hi, lo, cl, vol, bvol, svol := 0.0, 0.0, 0.0, 0.0, 0.0, 0.0, 0.0;
    for i := 0 to |trades|
      invariant i > 0 ==> interval != 0
      invariant FoldState(trades[..i], interval, candles, pdt, Ohlcv(op, hi, lo, cl, vol, bvol, svol))
    {
      var row := trades[i];
      if interval == 0 {
        return ZeroDivisionError;
      }
      var truncated := Bucket(row.time, interval);
      if Some(truncated) != pdt {
        OpenRowStep(trades, i, interval, candles, pdt, Ohlcv(op, hi, lo, cl, vol, bvol, svol));
        candles := candles + [Candle(Some(truncated), Ohlcv(op, hi, lo, cl, vol, bvol, svol))];
        pdt := Some(truncated);
        op := row.price;
        hi := row.price;
        lo := row.price;
        cl := row.price;
        vol := row.size;
        bvol := BuyShare(row);
        svol := SellShare(row);
        continue;
      }
      JoinRowStep(trades, i, interval, candles, pdt, Ohlcv(op, hi, lo, cl, vol, bvol, svol));
      hi := PyMax(hi, row.price);
      lo := PyMin(lo, row.price);
      cl := row.price;
      vol := vol + row.size;
      bvol := bvol + BuyShare(row);
      svol := svol + SellShare(row);
    }
    FinalStep(trades, interval, candles, pdt, Ohlcv(op, hi, lo, cl, vol, bvol, svol));
    candles := candles + [Candle(pdt, Ohlcv(op, hi, lo, cl, vol, bvol, svol))];
    r := Done(candles);
  }

  /** The list has one candle per run plus the final one: on empty input a
      single candle stamped `None` with all values zero, otherwise two more
      than the number of adjacent rows whose buckets differ. */
  lemma CandleCount(ts: seq<Trade>, interval: int)
    requires interval != 0 || ts == []
    ensures |Candles(ts, interval)| == |Runs(ts, interval)| + 1
    ensures ts == [] ==> Candles(ts, interval) == [Candle(None, Zero)]
    ensures ts != [] ==> |Candles(ts, interval)| == 2 + BucketChanges(ts, interval)
  {
    if ts != [] {
      RunCountIsBucketChanges(ts, interval);
    }
  }

  /** On non-empty input the first candle is stamped with the first row's
      bucket and carries the initial zeros. */
  lemma LeadingZeroCandle(ts: seq<Trade>, interval: int)
    requires interval != 0 && ts != []
    ensures Candles(ts, interval)[0] == Candle(Some(Bucket(ts[0].time, interval)), Zero)
  {
    var rs := Runs(ts, interval);
    InLoopCandleAt(rs, 0);
    EndBuckets(ts, interval);
  }

  /** Every later candle appended inside the loop is stamped with the bucket
      of the run that opens it but carries the values of the run before, whose
      rows all lie in another bucket. */
  lemma StampedWithNextBucket(ts: seq<Trade>, interval: int, i: int)
    requires interval != 0
    requires 1 <= i < |Runs(ts, interval)|
    ensures var rs := Runs(ts, interval);
            && Candles(ts, interval)[i] == Candle(Some(rs[i].bucket), Summary(rs[i - 1].trades))
            && forall t :: t in rs[i - 1].trades ==>
                 Some(Bucket(t.time, interval)) != Candles(ts, interval)[i].stamp
  {
    var rs := Runs(ts, interval);
    InLoopCandleAt(rs, i);
    RunsAreMaximalSplit(ts, interval);
    assert rs[i - 1].bucket != rs[i].bucket;
  }

  /** The final candle carries the last run's values and is stamped with the
      last row's bucket, the same stamp as the candle before it. */
  lemma FinalCandleRepeatsStamp(ts: seq<Trade>, interval: int)
    requires interval != 0 && ts != []
    ensures var cs := Candles(ts, interval);
            var rs := Runs(ts, interval);
            && |cs| >= 2
            && cs[|cs| - 1] == Candle(Some(Bucket(ts[|ts| - 1].time, interval)), Summary(rs[|rs| - 1].trades))
            && cs[|cs| - 2].stamp == cs[|cs| - 1].stamp
  {
    var rs := Runs(ts, interval);
    InLoopCandleAt(rs, |rs| - 1);
    EndBuckets(ts, interval);
  }

  /** Every candle of the list, the zero one included, has low <= open <= high
      and low <= close <= high. */
  lemma CandlesPricesWithinRange(ts: seq<Trade>, interval: int)
    requires interval != 0 || ts == []
    ensures forall c :: c in Candles(ts, interval) ==> PricesWithinRange(c.values)
  {
    var rs := Runs(ts, interval);
    var cs := Candles(ts, interval);
    forall k | 0 <= k < |cs| ensures PricesWithinRange(cs[k].values) {
      if k < |rs| {
        InLoopCandleAt(rs, k);
        if k > 0 {
          SummaryPricesWithinRange(rs[k - 1].trades);
        }
      } else if rs != [] {
        SummaryPricesWithinRange(rs[|rs| - 1].trades);
      }
    }
  }

  /** When every row is a "Buy" or a "Sell", every candle's volume is its buy
      volume plus its sell volume. */
  lemma CandlesVolumeIsBuyPlusSell(ts: seq<Trade>, interval: int)
    requires interval != 0 || ts == []
    requires forall i :: 0 <= i < |ts| ==> ts[i].side != Other
    ensures forall c :: c in Candles(ts, interval) ==>
              c.values.volume == c.values.buyVolume + c.values.sellVolume
  {
    var rs := Runs(ts, interval);
    var cs := Candles(ts, interval);
    forall k | 0 <= k < |rs| ensures Summary(rs[k].trades).volume
                                   == Summary(rs[k].trades).buyVolume + Summary(rs[k].trades).sellVolume
    {
      RunsAreMaximalSplit(ts, interval);
      forall j | 0 <= j < |rs[k].trades| ensures rs[k].trades[j].side != Other {
        RunRowsAreInputRows(rs, k, j);
      }
      SummaryVolumeIsBuyPlusSell(rs[k].trades);
    }
    forall k | 0 <= k < |cs|
      ensures cs[k].values.volume == cs[k].values.buyVolume + cs[k].values.sellVolume
    {
      if k < |rs| {
        InLoopCandleAt(rs, k);
      }
    }
  }

  /** The evidently intended candle list: one candle per run, stamped with the
      run's own bucket and carrying that run's values; no zero candle and
      nothing at all for empty input. */
  function IntendedCandles(ts: seq<Trade>, interval: int): seq<Candle>
    requires interval != 0 || ts == []
  {
    var rs := Runs(ts, interval);
    seq(|rs|, i requires 0 <= i < |rs| => Candle(Some(rs[i].bucket), Summary(rs[i].trades)))
  }

  /** Each intended candle is stamped with the bucket of every row it
      summarises, neighbouring candles have different stamps, and empty input
      gives no candle. */
  lemma IntendedCandlesMatchTheirRows(ts: seq<Trade>, interval: int)
    requires interval != 0
    ensures var rs := Runs(ts, interval);
            var cs := IntendedCandles(ts, interval);
            && |cs| == |rs|
            && (ts == [] ==> cs == [])
            && (forall i, j :: 0 <= i < |cs| && 0 <= j < |rs[i].trades| ==>
                  cs[i] == Candle(Some(Bucket(rs[i].trades[j].time, interval)), Summary(rs[i].trades)))
            && (forall i :: 0 <= i < |cs| - 1 ==> cs[i].stamp != cs[i + 1].stamp)
  {
    RunsAreMaximalSplit(ts, interval);
  }

  /** The list as written is the intended list with every value moved one
      candle later: stamp i agrees, values i appear at i + 1. */
  lemma ValuesShiftedOneCandleLater(ts: seq<Trade>, interval: int, i: int)
    requires interval != 0
    requires 0 <= i < |Runs(ts, interval)|
    ensures Candles(ts, interval)[i].stamp == IntendedCandles(ts, interval)[i].stamp
    ensures Candles(ts, interval)[i + 1].values == IntendedCandles(ts, interval)[i].values
  {
    var rs := Runs(ts, interval);
    InLoopCandleAt(rs, i);
    if i + 1 < |rs| {
      InLoopCandleAt(rs, i + 1);
    }
  }
}
