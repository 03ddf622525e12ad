# tamagoyaki: the tick-to-candle fold of `update`, in Dafny

tamagoyaki is a command-line tool that downloads one gzip CSV of trades per
day from an exchange and is meant to store candlesticks in SQLite. As written,
the first `Candle(...)` call of a day raises `TypeError` (see "## Left out"),
so no list is ever stored. This project models the part of its `update`
command that turns trades into candles. The model gives the list the loop
would build if a candle were a plain record:

- **the day list** (`tamagoyaki/main.py:56`). This is every day from `begin`
  to `end`, both included. Module `Days` gives each day as its ordinal.
- **the bucket truncation** (`tamagoyaki/main.py:83`). An instant is moved
  back by `dt.second % interval_sec` seconds and loses its microseconds.
  Module `Time` holds it, together with Python's `%` for either sign of the
  divisor.
- **the aggregation loop** (`tamagoyaki/main.py:73-126`). It makes one pass
  over the trade rows of a day with the variables `pdt`, `op`, `hi`, `lo`,
  `cl`, `vol`, `bvol` and `svol`. Each of these pieces has its own module:
  - `Aggregator.Aggregate` is the loop itself, written as a method. Its
    `ensures` says that it returns exactly `Aggregator.Candles`, or the
    `ZeroDivisionError` that a zero interval raises on the first row.
  - `Aggregator.Candles` is the specification of that method. It is built
    from `Grouping.Runs`, which cuts the rows into maximal runs of
    consecutive rows that share a bucket.
  - `Records.Summary` folds the accumulator steps of lines 100-115 over one
    run.

The model keeps the loop's behaviour as written:

- On a bucket change the loop appends a candle. That candle is stamped with
  the **new** bucket but carries the **previous** run's accumulators.
- The first row therefore appends an all-zero candle.
- The candle appended after the loop repeats the last stamp.
- A day without rows still yields one candle, stamped `None`.

The properties proved about this behaviour are the following:

- The grouping is exactly the unique maximal split of the rows by bucket.
- Every run's accumulators mean open, high, low, close and volumes.
- For a day with rows, the candle count is two more than the number of bucket
  changes; a day without rows gets one candle.
- The values arrive one candle late.

`Scenarios` works through concrete inputs.

A candlestick of "the interval of the candlestick in seconds" (the help text
of `interval_sec`, `tamagoyaki/main.py:39`) would summarise the trades of one
interval and be stamped with that interval's start. The code differs from that
reading in four ways, and the model follows the code in each:

- **Empty day.** A day without rows yields one candle, stamped `None`, with
  all values zero (`Aggregator.CandleCount`).
- **Bucket alignment.** Buckets are taken relative to the minute: line 83
  subtracts the remainder of the second within the minute, not of the epoch
  time. They are multiples of the interval exactly when the interval divides
  60. This is Finding 2 below.
- **Values one candle late.** Each candle carries the values of the bucket
  before its stamp. This is Finding 1 below.
- **Zero and negative intervals.** A zero interval raises
  `ZeroDivisionError`, and only when the day has a row. A negative interval
  makes Python's `%` non-positive, so the bucket is never in an earlier
  second than the instant, and less than `-interval` seconds later
  (`Time.PyMod`, `Time.Bucket`).

## Model

| member | source | states |
|---|---|---|
| Time.SecondOfMinute | tamagoyaki/main.py:83 | `dt.second` lies in 0..59 and is what remains after removing whole minutes |
| Time.PyMod | tamagoyaki/main.py:83 | Python's `%`: the result has the divisor's sign and lies strictly within the divisor; it does not exceed a non-negative dividend |
| Time.PyDivisionIdentity | tamagoyaki/main.py:83 | Python's `%` and `//` satisfy `a == b * (a // b) + a % b` for either sign of `b` |
| Time.Bucket | tamagoyaki/main.py:82-83 | the truncated instant has no microseconds. For a positive interval it is not after the instant and at most `min(interval, 60) - 1` whole seconds earlier. For a negative interval it is never in an earlier second, and less than `-interval` seconds later |
| Time.BucketSameMinute | tamagoyaki/main.py:83 | a positive interval never leaves the instant's minute; an interval of 60 or more truncates to the start of the minute |
| Time.BucketIdempotent | tamagoyaki/main.py:83 | truncating a truncated instant changes nothing |
| Time.BucketAlignedWhenDividingMinute | tamagoyaki/main.py:83 | when the interval divides 60, every bucket is a multiple of the interval in epoch seconds |
| Time.BucketNotAlignedForTwoMinutes | tamagoyaki/main.py:83 | with interval 120 the instant 60 s is its own bucket, which is not a multiple of 120; the epoch-aligned bucket is 0 |
| Time.BucketNotAlignedUnlessDividingMinute | tamagoyaki/main.py:83 | for every positive interval that does not divide 60, the instant 60 s is its own bucket and not a multiple of the interval; with BucketAlignedWhenDividingMinute, buckets are epoch-aligned exactly when the interval divides 60 |
| Time.EpochBucket | tamagoyaki/main.py:83 | the epoch-aligned bucket is a multiple of the interval, not after the instant, and less than one interval earlier |
| Time.BucketIsEpochBucketWhenDividingMinute | tamagoyaki/main.py:83 | when the interval divides 60, the bucket of line 83 is the epoch-aligned bucket, so Finding 2 only concerns intervals that do not divide 60 |
| Records.Restart | tamagoyaki/main.py:100-106 | no contract; the accumulators restarted from one row, whose meaning SummaryMeaning states for a one-row run |
| Records.Step | tamagoyaki/main.py:110-115 | no contract; one row folded into the accumulators, whose meaning SummaryMeaning states for the run it extends |
| Records.Summary | tamagoyaki/main.py:100-115 | no contract; the accumulators after the rows of one run; SummaryMeaning states what it computes |
| Records.SummaryMeaning | tamagoyaki/main.py:100-115 | after a run's rows, open is the first price, close the last price, high the highest price and low the lowest price. Volume is the sum of the sizes, and buy and sell volume are the sums over the "Buy" and "Sell" rows |
| Records.SummaryPricesWithinRange | tamagoyaki/main.py:100-112 | every run's accumulators keep low <= open, close <= high |
| Records.VolumeSplitsBySide | tamagoyaki/main.py:104-106 | total size equals buy plus sell plus other-side size, and the other-side size is zero when every row is "Buy" or "Sell" |
| Records.SummaryVolumeIsBuyPlusSell | tamagoyaki/main.py:104-115 | a run of only "Buy" and "Sell" rows has volume equal to buy volume plus sell volume |
| Grouping.Runs | tamagoyaki/main.py:86-115 | the runs are non-empty, no more numerous than the rows, and absent exactly when there are no rows |
| Grouping.RunsJoin | tamagoyaki/main.py:110-115 | step equation of Runs for the join branch, used by JoinRunStep: a row in the last run's bucket extends that run |
| Grouping.RunsOpen | tamagoyaki/main.py:86-108 | step equation of Runs for the open branch, used by OpenRunStep: a row outside the last run's bucket, or the first row, opens a run of its own |
| Grouping.RunsAreMaximalSplit | tamagoyaki/main.py:80-115 | the runs concatenate back to the rows, none is empty, every row lies in its run's bucket, and neighbouring runs have different buckets |
| Grouping.MaximalSplitIsRuns | tamagoyaki/main.py:80-115 | any split with those four properties is the runs: the grouping is unique |
| Grouping.EndBuckets | tamagoyaki/main.py:83-99 | the first run lies in the first row's bucket and the last run in the last row's bucket |
| Grouping.RunCountIsBucketChanges | tamagoyaki/main.py:86 | non-empty rows form one run more than there are adjacent rows with different buckets; a return to an earlier bucket opens a new run |
| Grouping.RunRowsAreInputRows | tamagoyaki/main.py:80 | every row of every run is one of the rows |
| Aggregator.InLoopCandles | tamagoyaki/main.py:86-99 | the loop appends one candle per run |
| Aggregator.InLoopCandleAt | tamagoyaki/main.py:88-99 | the i-th candle appended in the loop is stamped with run i's bucket and carries run i-1's accumulators; the first carries zeros |
| Aggregator.OpenRowStep | tamagoyaki/main.py:86-108 | the branch for a new bucket takes the loop state for `trades[..i]` to the state for `trades[..i+1]`: one candle more, `pdt` set, accumulators restarted from the row |
| Aggregator.JoinRowStep | tamagoyaki/main.py:110-115 | the branch for the same bucket keeps the candles and `pdt` and folds the row into the accumulators, giving the state for `trades[..i+1]` |
| Aggregator.FinalStep | tamagoyaki/main.py:117-126 | the candle appended after the loop completes the list `Candles` |
| Aggregator.FinalCandle | tamagoyaki/main.py:117-126 | no contract; the candle appended after the loop; FinalCandleRepeatsStamp states its stamp and values |
| Aggregator.Candles | tamagoyaki/main.py:73-126 | no contract; the list the loop builds, which Aggregate is proved to return; CandleCount, LeadingZeroCandle, StampedWithNextBucket and FinalCandleRepeatsStamp state its shape |
| Aggregator.Aggregate | tamagoyaki/main.py:73-126 | the loop raises ZeroDivisionError exactly when the interval is zero and there is a row; otherwise it returns exactly `Candles(trades, interval)` |
| Aggregator.CandleCount | tamagoyaki/main.py:78-126 | one candle per run plus the final one; `[Candle(None, zeros)]` for a day without rows; otherwise two more than the number of bucket changes |
| Aggregator.LeadingZeroCandle | tamagoyaki/main.py:78-99 | the first candle is stamped with the first row's bucket and carries all zeros |
| Aggregator.StampedWithNextBucket | tamagoyaki/main.py:86-99 | each later in-loop candle carries the previous run's values under a stamp that is not the bucket of any row it summarises |
| Aggregator.FinalCandleRepeatsStamp | tamagoyaki/main.py:117-126 | the final candle carries the last run's values under the last row's bucket, the same stamp as the candle before it |
| Aggregator.CandlesPricesWithinRange | tamagoyaki/main.py:79-126 | every candle, the zero one included, has low <= open, close <= high |
| Aggregator.CandlesVolumeIsBuyPlusSell | tamagoyaki/main.py:79-126 | when every row is "Buy" or "Sell", every candle's volume is its buy plus its sell volume |
| Aggregator.IntendedCandles | tamagoyaki/main.py:86-126 | no contract; the corrected list of Finding 1, one candle per run; IntendedCandlesMatchTheirRows states what it contains |
| Aggregator.IntendedCandlesMatchTheirRows | tamagoyaki/main.py:86-126 | the intended list has one candle per run; each candle is stamped with the bucket of every row it summarises; neighbouring stamps differ; a day without rows gives none |
| Aggregator.ValuesShiftedOneCandleLater | tamagoyaki/main.py:86-126 | candle i of the list as written has the intended stamp i, and candle i+1 has the intended values i |
| Scenarios.ValuesArriveOneCandleLate | tamagoyaki/main.py:73-126 | rows in seconds 0, 0 and 1 with interval 1 give three candles: zeros at 0, the first second's values at 1, the second second's values at 1. The intended list is two candles, one per second |
| Scenarios.ReturningBucketOpensNewRun | tamagoyaki/main.py:86 | rows in seconds 0, 1, 0 make three runs and four candles |
| Scenarios.CandlesOfTwoRuns | tamagoyaki/main.py:73-126 | rows that form two runs give the zero candle, run 0's values stamped with run 1's bucket, and run 1's values stamped again with run 1's bucket |
| Days.DateRange | tamagoyaki/main.py:56 | no contract; the days from begin to end; DateRangeShape and DateRangeMembers state what it holds |
| Days.DateRangeMembers | tamagoyaki/main.py:56 | a day is in the list exactly when it lies between begin and end, both included |
| Days.DateRangeShape | tamagoyaki/main.py:56 | the list has `end - begin + 1` days, none when end precedes begin; it starts at begin, ends at end, and each day follows the one before |
| Days.DateRangeUnfold | tamagoyaki/main.py:56 | step equation of DateRange: a non-empty range is its first day followed by the range of the remaining days |

## Left out

- Date parsing and validation (`tamagoyaki/main.py:46-51`): `strptime` on `YYYYMMDD` and the `BadParameter` error are not modelled. Days are taken as ordinals, and the `datetime` year bounds 1..9999 are not modelled.
- Download, decompression and CSV reading (`tamagoyaki/main.py:59-76`) are I/O. The rows of a day are a parameter. A failed download skips the day (line 70); that is the caller's branch and is not modelled.
- The header skip `next(reader)` (line 76) is not modelled; the rows are given without the header.
- Parsing a row (line 82 and `float(row[i])`): timestamps come in as exact seconds and microseconds. Prices and sizes are exact reals. Float rounding, and the rounding `fromtimestamp` does to microseconds, are not modelled. A malformed row, which would raise `ValueError` or `IndexError`, is not modelled.
- Constructing the database row (`tamagoyaki/main.py:88-97,117-126`, `tamagoyaki/database.py:7-22`): `Candle` is built on SQLAlchemy's `declarative_base()`, whose constructor raises `TypeError` for a keyword that is not a mapped attribute. `Candle` has a `datetime` column, not `dt`. As written, the call at line 88 therefore raises on the first row of every day with rows, and the call at line 117 raises on a day without rows. No candle list is ever finished or stored. The model replaces the row with a plain record of stamp and seven values, and gives the list the loop would build with it. The columns `exchange` and `symbol` are never set, and the values are stored as strings; neither is modelled.
- Storage (`tamagoyaki/main.py:54,129-130`, `tamagoyaki/database.py:28-33`) is I/O and is not modelled.
- The CLI, the logger, the working directory and the `callback` and `generate` commands (`tamagoyaki/main.py:14-31,133-143`) are not modelled. `generate` has an empty body.
- Time.Bucket: its properties are proved for positive intervals. For negative intervals only its range is stated: never in an earlier second than the instant, and less than `-interval` seconds later.

## Findings

| source | as written | input that shows it | evidently intended | confidence | as-written member | corrected member |
|---|---|---|---|---|---|---|
| tamagoyaki/main.py:86-126 | On a bucket change the loop appends a candle stamped with the new bucket but carrying the previous run's values. The first row adds an all-zero candle, and the final candle repeats the last stamp. | interval 1; rows (0 s, Buy, 1, 100), (0.5 s, Sell, 2, 101), (1.2 s, Buy, 1, 102). With a plain record for a candle, the list built is [0: zeros], [1: 100/101/100/101, vol 3], [1: 102/102/102/102, vol 1]. | One candle per bucket, stamped with that bucket's start and summarising that bucket's trades: [0: 100/101/100/101, vol 3], [1: 102/102/102/102, vol 1]. | high, not executed | Scenarios.ValuesArriveOneCandleLate | Aggregator.IntendedCandlesMatchTheirRows |
| tamagoyaki/main.py:83 | The bucket subtracts `dt.second % interval`, the remainder of the second within the minute. So for an interval that does not divide 60, buckets are not multiples of the interval. | interval 120; the instant 60 s is bucketed to 60 s, not to 0 s. For every interval that does not divide 60, 60 s is its own bucket. | `t - t mod interval` in epoch seconds: a candle of `interval_sec` seconds (help text at line 39) starting at a multiple of the interval. | medium, not executed | Time.BucketNotAlignedForTwoMinutes, Time.BucketNotAlignedUnlessDividingMinute | Time.EpochBucket, Time.BucketIsEpochBucketWhenDividingMinute |
