/** Trades, the seven candle values and the accumulator steps of the fold in
    the `update` command (tamagoyaki/main.py, lines 78-126). Prices and sizes
    are exact reals in place of Python floats. */
module Records {
  import opened Time
  import opened Wrappers

  /** Column 2 of a trade row: "Buy", "Sell", or any other text. */
  datatype Side = Buy | Sell | Other

  /** A parsed trade row: timestamp (column 0), side (column 2), size
      (column 3) and price (column 4). */
  datatype Trade = Trade(time: Instant, side: Side, size: real, price: real)

  /** The seven accumulators `op, hi, lo, cl, vol, bvol, svol`, and the
      values a candle carries. */
  datatype Ohlcv = Ohlcv(open: real, high: real, low: real, close: real,
                         volume: real, buyVolume: real, sellVolume: real)

  /** The accumulators before the first row (line 79). */
  const Zero: Ohlcv := Ohlcv(0.0, 0.0, 0.0, 0.0, 0.0, 0.0, 0.0)

  /** A candle as the loop builds it: the `dt` it is stamped with (`None`
      only when the loop never ran) and its values. */
  datatype Candle = Candle(stamp: Option<Instant>, values: Ohlcv)

  /** Python's `max(a, b)`: `a` unless `b` is larger. */
  function PyMax(a: real, b: real): real {
    if b > a then b else a
  }

  /** Python's `min(a, b)`: `a` unless `b` is smaller. */
  function PyMin(a: real, b: real): real {
    if b < a then b else a
  }

  /** The size a row adds to the buy volume (lines 105, 114). */
  function BuyShare(t: Trade): real {
    if t.side == Buy then t.size else 0.0
  }

  /** The size a row adds to the sell volume (lines 106, 115). */
  function SellShare(t: Trade): real {
    if t.side == Sell then t.size else 0.0
  }

  /** Lines 100-106: the accumulators restarted from the first row of a run. */
  function Restart(t: Trade): Ohlcv {
    Ohlcv(t.price, t.price, t.price, t.price, t.size, BuyShare(t), SellShare(t))
  }

  /** Lines 110-115: one more row of the current run folded in. */
  function Step(acc: Ohlcv, t: Trade): Ohlcv {
    Ohlcv(acc.open, PyMax(acc.high, t.price), PyMin(acc.low, t.price), t.price,
          acc.volume + t.size, acc.buyVolume + BuyShare(t), acc.sellVolume + SellShare(t))
  }

  /** The accumulators after the rows of one run, folded left to right. */
  function Summary(ts: seq<Trade>): Ohlcv
    requires ts != []
  {
    if |ts| == 1 then Restart(ts[0]) else Step(Summary(ts[..|ts| - 1]), ts[|ts| - 1])
  }

  /** Sum of the sizes of the rows. */
  function TotalSize(ts: seq<Trade>): real {
    if ts == [] then 0.0 else ts[0].size + TotalSize(ts[1..])
  }

  /** Sum of the sizes of the rows on the given side. */
  function SideVolume(ts: seq<Trade>, side: Side): real {
    if ts == [] then 0.0
    else (if ts[0].side == side then ts[0].size else 0.0) + SideVolume(ts[1..], side)
  }

  /** `p` is the largest price among the rows. */
  ghost predicate IsHighest(p: real, ts: seq<Trade>) {
    (forall i :: 0 <= i < |ts| ==> ts[i].price <= p) &&
    (exists i :: 0 <= i < |ts| && ts[i].price == p)
  }

  /** `p` is the smallest price among the rows. */
  ghost predicate IsLowest(p: real, ts: seq<Trade>) {
    (forall i :: 0 <= i < |ts| ==> p <= ts[i].price) &&
    (exists i :: 0 <= i < |ts| && ts[i].price == p)
  }

  /** The price invariants of a candle: open and close lie within [low, high]. */
  predicate PricesWithinRange(o: Ohlcv) {
    o.low <= o.open <= o.high && o.low <= o.close <= o.high
  }

  lemma {:induction false} TotalSizeAppend(ts: seq<Trade>, t: Trade)
    ensures TotalSize(ts + [t]) == TotalSize(ts) + t.size
  {
    if ts != [] {
      assert (ts + [t])[1..] == ts[1..] + [t];
      TotalSizeAppend(ts[1..], t);
    }
  }

  lemma {:induction false} SideVolumeAppend(ts: seq<Trade>, t: Trade, side: Side)
    ensures SideVolume(ts + [t], side)
         == SideVolume(ts, side) + (if t.side == side then t.size else 0.0)
  {
    if ts != [] {
      assert (ts + [t])[1..] == ts[1..] + [t];
      SideVolumeAppend(ts[1..], t, side);
    }
  }

  /** What the accumulators hold after a run: open is the first price, close
      the last, high and low the extreme prices, volume the sum of all sizes,
      buy and sell volume the sums of the sizes on those sides. */
  lemma {:induction false} SummaryMeaning(ts: seq<Trade>)
    requires ts != []
    ensures Summary(ts).open == ts[0].price
    ensures Summary(ts).close == ts[|ts| - 1].price
    ensures IsHighest(Summary(ts).high, ts)
    ensures IsLowest(Summary(ts).low, ts)
    ensures Summary(ts).volume == TotalSize(ts)
    ensures Summary(ts).buyVolume == SideVolume(ts, Buy)
    ensures Summary(ts).sellVolume == SideVolume(ts, Sell)
  {
    var n := |ts|;
    if n == 1 {
      assert ts[1..] == [];
      assert ts[0].price == ts[0].price;
    } else {
      var init, t := ts[..n - 1], ts[n - 1];
      assert ts == init + [t];
      SummaryMeaning(init);
      TotalSizeAppend(init, t);
      SideVolumeAppend(init, t, Buy);
      SideVolumeAppend(init, t, Sell);
      var s := Summary(init);
      var hi := Summary(ts).high;
      var lo := Summary(ts).low;
      if t.price > s.high {
        assert ts[n - 1].price == hi;
      } else {
        var j :| 0 <= j < n - 1 && init[j].price == s.high;
        assert ts[j].price == hi;
      }
      if t.price < s.low {
        assert ts[n - 1].price == lo;
      } else {
        var j :| 0 <= j < n - 1 && init[j].price == s.low;
        assert ts[j].price == lo;
      }
    }
  }

  /** Every candle built from a run keeps low <= open, close <= high. */
  lemma SummaryPricesWithinRange(ts: seq<Trade>)
    requires ts != []
    ensures PricesWithinRange(Summary(ts))
  {
    SummaryMeaning(ts);
  }

  /** The total size splits by side; when every side is "Buy" or "Sell" the
      volume is exactly the buy volume plus the sell volume. */
  lemma {:induction false} VolumeSplitsBySide(ts: seq<Trade>)
    ensures TotalSize(ts) == SideVolume(ts, Buy) + SideVolume(ts, Sell) + SideVolume(ts, Other)
    ensures (forall i :: 0 <= i < |ts| ==> ts[i].side != Other) ==> SideVolume(ts, Other) == 0.0
  {
    if ts != [] {
      VolumeSplitsBySide(ts[1..]);
      assert forall i :: 0 <= i < |ts| - 1 ==> ts[1..][i] == ts[i + 1];
    }
  }

  /** A run whose rows are all "Buy" or "Sell" yields volume == buy + sell. */
  lemma SummaryVolumeIsBuyPlusSell(ts: seq<Trade>)
    requires ts != []
    requires forall i :: 0 <= i < |ts| ==> ts[i].side != Other
    ensures Summary(ts).volume == Summary(ts).buyVolume + Summary(ts).sellVolume
  {
    SummaryMeaning(ts);
    VolumeSplitsBySide(ts);
  }
}
