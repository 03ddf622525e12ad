/** The days the `update` command walks (tamagoyaki/main.py, line 56).
    A day is its proleptic Gregorian ordinal: `strptime` with "%Y%m%d" gives
    midnight, so `(edt - bdt).days` is the difference of the ordinals and
    `bdt + timedelta(days=i)` is ordinal `begin + i`. */
module Days {

  /** `[bdt + timedelta(days=i) for i in range((edt - bdt).days + 1)]`:
      `range` of a count below one is empty. */
  function DateRange(begin: int, end: int): (days: seq<int>)
  {
    var n := end - begin + 1;
    seq(if n < 0 then 0 else n, i => begin + i)
  }

  /** The list holds (end - begin) + 1 days, none when end precedes begin;
      it starts at begin and each day follows the one before it. */
  lemma DateRangeShape(begin: int, end: int)
    ensures |DateRange(begin, end)| == if end < begin then 0 else end - begin + 1
    ensures begin <= end ==> DateRange(begin, end)[0] == begin
    ensures begin <= end ==> DateRange(begin, end)[|DateRange(begin, end)| - 1] == end
    ensures forall i :: 0 < i < |DateRange(begin, end)| ==>
              DateRange(begin, end)[i] == DateRange(begin, end)[i - 1] + 1
  {
  }

  /** A day is in the list exactly when it lies between begin and end,
      both included. */
  lemma DateRangeMembers(begin: int, end: int, d: int)
    ensures d in DateRange(begin, end) <==> begin <= d <= end
  {
    if begin <= d <= end {
      assert DateRange(begin, end)[d - begin] == d;
    }
  }

  /** The range of a non-empty span is its first day followed by the range of
      the rest. */
  lemma {:induction false} DateRangeUnfold(begin: int, end: int)
    requires begin <= end
    ensures DateRange(begin, end) == [begin] + DateRange(begin + 1, end)
  {
    assert |DateRange(begin + 1, end)| == end - begin;
  }
}
