/** Concrete inputs that show the fold of tamagoyaki/main.py (lines 73-126)
    at work. Each scenario is put together from a grouping fact that holds
    for any rows with the given bucket pattern, the buckets of the concrete
    instants, and the accumulators of the concrete rows. */
module Scenarios {
  import opened Wrappers
  import opened Time
  import opened Records
  import opened Grouping
  import opened Aggregator

  /** Two rows in one bucket followed by a row in another make two runs. */
  lemma JoinThenOpen(a: Trade, b: Trade, c: Trade, interval: int)
    requires interval != 0
    requires Bucket(b.time, interval) == Bucket(a.time, interval)
    requires Bucket(c.time, interval) != Bucket(a.time, interval)
    ensures Runs([a, b, c], interval)
         == [Run(Bucket(a.time, interval), [a, b]), Run(Bucket(c.time, interval), [c])]
  {
    RunsOpen([], a, interval);
    assert [] + [a] == [a];
    RunsJoin([a], b, interval);
    assert [a] + [b] == [a, b];
    RunsOpen([a, b], c, interval);
    assert [a, b] + [c] == [a, b, c];
  }

  /** A row, a row in another bucket, and a row back in the first bucket
      make three runs. */
  lemma OpenOpenOpen(a: Trade, b: Trade, interval: int)
    requires interval != 0
    requires Bucket(b.time, interval) != Bucket(a.time, interval)
    ensures Runs([a, b, a], interval)
         == [Run(Bucket(a.time, interval), [a]), Run(Bucket(b.time, interval), [b]),
             Run(Bucket(a.time, interval), [a])]
  {
    RunsOpen([], a, interval);
    assert [] + [a] == [a];
    RunsOpen([a], b, interval);
    assert [a] + [b] == [a, b];
    RunsOpen([a, b], a, interval);
    assert [a, b] + [a] == [a, b, a];
  }

  /** The candles of any rows that form exactly two runs. */
  lemma CandlesOfTwoRuns(ts: seq<Trade>, interval: int, r0: Run, r1: Run)
    requires interval != 0
    requires r0.trades != [] && r1.trades != []
    requires Runs(ts, interval) == [r0, r1]
    ensures Candles(ts, interval)
         == [Candle(Some(r0.bucket), Zero), Candle(Some(r1.bucket), Summary(r0.trades)),
             Candle(Some(r1.bucket), Summary(r1.trades))]
    ensures IntendedCandles(ts, interval)
         == [Candle(Some(r0.bucket), Summary(r0.trades)), Candle(Some(r1.bucket), Summary(r1.trades))]
  {
    var rs := [r0, r1];
    InLoopCandleAt(rs, 0);
    InLoopCandleAt(rs, 1);
  }

  /** A one-second interval drops the microseconds and nothing else. */
  lemma WholeSecondBucket(t: Instant)
    ensures Bucket(t, 1) == Instant(t.seconds, 0)
  {
    assert PyMod(SecondOfMinute(t), 1) == 0;
  }

  /** The accumulators of the two runs of the scenario below. */
  lemma ScenarioSummaries(a: Trade, b: Trade, c: Trade)
    requires a.time.seconds == 0 && a.side == Buy && a.size == 1.0 && a.price == 100.0
    requires b.time.seconds == 0 && b.side == Sell && b.size == 2.0 && b.price == 101.0
    requires c.time.seconds == 1 && c.side == Buy && c.size == 1.0 && c.price == 102.0
    ensures Summary([a, b]) == Ohlcv(100.0, 101.0, 100.0, 101.0, 3.0, 1.0, 2.0)
    ensures Summary([c]) == Ohlcv(102.0, 102.0, 102.0, 102.0, 1.0, 1.0, 0.0)
  {
    assert [a, b][..1] == [a];
  }

  /** The candles of two rows in one bucket followed by a row in another. */
  lemma CandlesOfJoinThenOpen(a: Trade, b: Trade, c: Trade, interval: int)
    requires interval != 0
    requires Bucket(b.time, interval) == Bucket(a.time, interval)
    requires Bucket(c.time, interval) != Bucket(a.time, interval)
    ensures Candles([a, b, c], interval)
         == [Candle(Some(Bucket(a.time, interval)), Zero),
             Candle(Some(Bucket(c.time, interval)), Summary([a, b])),
             Candle(Some(Bucket(c.time, interval)), Summary([c]))]
    ensures IntendedCandles([a, b, c], interval)
         == [Candle(Some(Bucket(a.time, interval)), Summary([a, b])),
             Candle(Some(Bucket(c.time, interval)), Summary([c]))]
  {
    JoinThenOpen(a, b, c, interval);
    CandlesOfTwoRuns([a, b, c], interval, Run(Bucket(a.time, interval), [a, b]), Run(Bucket(c.time, interval), [c]));
  }

  /** Two rows in second 0 and one in second 1 (for instance at 0 s, 0.5 s
      and 1.2 s) with a one-second interval. The fold as written returns
      three candles: the zero candle stamped 0, the first second's values
      stamped 1, and the second second's values stamped 1 again. The intended
      list has two candles, each stamped with its own second. */
  lemma ValuesArriveOneCandleLate(a: Trade, b: Trade, c: Trade)
    requires a.time.seconds == 0 && a.side == Buy && a.size == 1.0 && a.price == 100.0
    requires b.time.seconds == 0 && b.side == Sell && b.size == 2.0 && b.price == 101.0
    requires c.time.seconds == 1 && c.side == Buy && c.size == 1.0 && c.price == 102.0
    ensures Candles([a, b, c], 1)
         == [Candle(Some(Instant(0, 0)), Zero),
             Candle(Some(Instant(1, 0)), Ohlcv(100.0, 101.0, 100.0, 101.0, 3.0, 1.0, 2.0)),
             Candle(Some(Instant(1, 0)), Ohlcv(102.0, 102.0, 102.0, 102.0, 1.0, 1.0, 0.0))]
    ensures IntendedCandles([a, b, c], 1)
         == [Candle(Some(Instant(0, 0)), Ohlcv(100.0, 101.0, 100.0, 101.0, 3.0, 1.0, 2.0)),
             Candle(Some(Instant(1, 0)), Ohlcv(102.0, 102.0, 102.0, 102.0, 1.0, 1.0, 0.0))]
  {
    WholeSecondBucket(a.time);
    WholeSecondBucket(b.time);
    WholeSecondBucket(c.time);
    CandlesOfJoinThenOpen(a, b, c, 1);
    ScenarioSummaries(a, b, c);
  }

  /** A row, a row in another bucket, and the first row again: three runs,
      so four candles. */
  lemma CandlesOfOpenOpenOpen(a: Trade, b: Trade, interval: int)
    requires interval != 0
    requires Bucket(b.time, interval) != Bucket(a.time, interval)
    ensures |Runs([a, b, a], interval)| == 3
    ensures |Candles([a, b, a], interval)| == 4
  {
    OpenOpenOpen(a, b, interval);
    CandleCount([a, b, a], interval);
  }

  /** Rows in seconds 0, 1 and 0 again: the return to second 0 opens a third
      run, so the fold returns four candles. */
  lemma ReturningBucketOpensNewRun(a: Trade, b: Trade)
    requires a.time.seconds == 0
    requires b.time.seconds == 1
    ensures |Runs([a, b, a], 1)| == 3
    ensures |Candles([a, b, a], 1)| == 4
  {
    WholeSecondBucket(a.time);
    WholeSecondBucket(b.time);
    CandlesOfOpenOpenOpen(a, b, 1);
  }
}
