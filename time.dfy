/** Instants and the bucket truncation of the `update` command
    (tamagoyaki/main.py, lines 82-83). */
module Time {

  /** A microsecond part, as a Python `datetime` holds it. */
  type Micros = m: int | 0 <= m < 1_000_000

  /** A UTC instant: whole seconds since the Unix epoch plus microseconds. */
  datatype Instant = Instant(seconds: int, micros: Micros)

  /** `a` is not later than `b`. */
  predicate NotAfter(a: Instant, b: Instant) {
    a.seconds < b.seconds || (a.seconds == b.seconds && a.micros <= b.micros)
  }

  function Min(a: int, b: int): int {
    if a <= b then a else b
  }

  /** The `second` attribute of a UTC datetime: the second within its minute. */
  function SecondOfMinute(t: Instant): (s: int)
    ensures 0 <= s < 60
    ensures t.seconds - s == 60 * (t.seconds / 60)
  {
    t.seconds % 60
  }

  /** Python's `//` on integers: the quotient rounded towards minus infinity. */
  function FloorDiv(a: int, b: int): int
    requires b != 0
  {
    if b < 0 && a % b != 0 then a / b - 1 else a / b
  }

  /** Python's `%` on integers: the result has the sign of the divisor.
      A zero divisor raises, so it is excluded here and handled by the caller. */
  function PyMod(a: int, b: int): (r: int)
    requires b != 0
    ensures b > 0 ==> 0 <= r < b
    ensures b < 0 ==> b < r <= 0
    ensures b > 0 && 0 <= a ==> r <= a
  {
    var m := a % b;
    if b < 0 && m != 0 then m + b else m
  }

  /** Python's division identity `a == b * (a // b) + a % b`. */
  lemma PyDivisionIdentity(a: int, b: int)
    requires b != 0
    ensures a == b * FloorDiv(a, b) + PyMod(a, b)
  {
    assert a == b * (a / b) + a % b;
    if b < 0 && a % b != 0 {
      assert b * (a / b - 1) == b * (a / b) - b;
    }
  }

  /** Line 83: the instant, less its microseconds and less its second within
      the minute taken modulo the interval with Python's `%`.
      The remainder is taken of the second within the minute, not of the
      seconds since the epoch; a negative interval (Python's `%` then is
      non-positive) never moves it into an earlier second. */
  function Bucket(t: Instant, interval: int): (r: Instant)
    requires interval != 0
    ensures r.micros == 0
    ensures interval > 0 ==> NotAfter(r, t)
    ensures interval > 0 ==> t.seconds - r.seconds < Min(interval, 60)
    ensures interval < 0 ==> t.seconds <= r.seconds < t.seconds - interval
  {
    Instant(t.seconds - PyMod(SecondOfMinute(t), interval), 0)
  }

  /** A positive interval never moves an instant out of its minute, and an
      interval of a minute or more truncates to the start of the minute. */
  lemma BucketSameMinute(t: Instant, interval: int)
    requires interval > 0
    ensures Bucket(t, interval).seconds / 60 == t.seconds / 60
    ensures interval >= 60 ==> Bucket(t, interval).seconds == 60 * (t.seconds / 60)
  {
    var s := SecondOfMinute(t);
    var m := PyMod(s, interval);
    assert 0 <= s - m < 60;
    assert Bucket(t, interval).seconds == 60 * (t.seconds / 60) + (s - m);
  }

  lemma MulAtLeast(b: int, k: int)
    requires b > 0 && k >= 1
    ensures b * k >= b
  {
  }

  lemma MulAtMost(b: int, k: int)
    requires b > 0 && k <= -1
    ensures b * k <= -b
  {
  }

  /** Euclidean division is determined by the division identity and the
      range of the remainder. */
  lemma DivModUnique(q: int, b: int, r: int)
    requires b > 0 && 0 <= r < b
    ensures (b * q + r) / b == q && (b * q + r) % b == r
  {
    var x := b * q + r;
    var k := q - x / b;
    assert x == b * (x / b) + x % b;
    assert b * k == x % b - r;
    if k >= 1 {
      MulAtLeast(b, k);
    } else if k <= -1 {
      MulAtMost(b, k);
    }
  }

  /** Subtracting a number's remainder leaves a multiple of the divisor. */
  lemma MinusModIsMultiple(a: int, b: int)
    requires b > 0
    ensures (a - a % b) % b == 0
  {
    assert a - a % b == b * (a / b) + 0;
    DivModUnique(a / b, b, 0);
  }

  /** Bucketing twice is bucketing once, for every positive interval. */
  lemma BucketIdempotent(t: Instant, interval: int)
    requires interval > 0
    ensures Bucket(Bucket(t, interval), interval) == Bucket(t, interval)
  {
    var r := Bucket(t, interval);
    var s := SecondOfMinute(t);
    var m := s % interval;
    assert r.seconds == t.seconds - m;
    assert SecondOfMinute(r) == s - m;
    MinusModIsMultiple(s, interval);
    assert PyMod(s - m, interval) == 0;
  }

  /** When the interval divides a minute, buckets are multiples of the
      interval in epoch seconds. */
  lemma BucketAlignedWhenDividingMinute(t: Instant, interval: int)
    requires interval > 0 && 60 % interval == 0
    ensures Bucket(t, interval).seconds % interval == 0
  {
    var s := SecondOfMinute(t);
    var m := s % interval;
    var q := t.seconds / 60;
    var c := 60 / interval;
    assert 60 == interval * c + 0;
    MinusModIsMultiple(s, interval);
    var d := (s - m) / interval;
    assert s - m == interval * d + 0;
    assert 60 * q == interval * (c * q) by {
      assert 60 * q == (interval * c) * q;
    }
    assert Bucket(t, interval).seconds == interval * (c * q + d) + 0;
    DivModUnique(c * q + d, interval, 0);
  }

  /** Bucketing by the epoch, as an aligned bucket would be computed:
      the start of the interval that contains `t`. */
  function EpochBucket(t: Instant, interval: int): (r: Instant)
    requires interval > 0
    ensures r.micros == 0 && NotAfter(r, t)
    ensures r.seconds % interval == 0
    ensures t.seconds - r.seconds < interval
  {
    MinusModIsMultiple(t.seconds, interval);
    Instant(t.seconds - t.seconds % interval, 0)
  }

  /** With an interval of two minutes, the second minute of every two-minute
      span is bucketed to its own start, which is not a multiple of 120. */
  lemma BucketNotAlignedForTwoMinutes()
    ensures Bucket(Instant(60, 0), 120) == Instant(60, 0)
    ensures Bucket(Instant(60, 0), 120).seconds % 120 != 0
    ensures EpochBucket(Instant(60, 0), 120) == Instant(0, 0)
  {
    var t := Instant(60, 0);
    assert 60 % 60 == 0;
    assert SecondOfMinute(t) == 0;
    assert 0 % 120 == 0;
    assert PyMod(0, 120) == 0;
    assert Bucket(t, 120) == t;
    assert 60 % 120 == 60;
  }

  /** Conversely, for every positive interval that does not divide 60, the
      start of the second minute is its own bucket and is not a multiple of
      the interval: buckets are epoch-aligned exactly when the interval
      divides a minute. */
  lemma BucketNotAlignedUnlessDividingMinute(interval: int)
    requires interval > 0 && 60 % interval != 0
    ensures Bucket(Instant(60, 0), interval) == Instant(60, 0)
    ensures Bucket(Instant(60, 0), interval).seconds % interval != 0
  {
    assert SecondOfMinute(Instant(60, 0)) == 0;
    assert PyMod(0, interval) == 0;
  }

  /** When the interval divides 60, the bucket of line 83 is the
      epoch-aligned bucket: two multiples of the interval less than one
      interval apart are equal. */
  lemma BucketIsEpochBucketWhenDividingMinute(t: Instant, interval: int)
    requires interval > 0 && 60 % interval == 0
    ensures Bucket(t, interval) == EpochBucket(t, interval)
  {
    var r, e := Bucket(t, interval), EpochBucket(t, interval);
    BucketAlignedWhenDividingMinute(t, interval);
    var qr, qe := r.seconds / interval, e.seconds / interval;
    assert r.seconds == interval * qr;
    assert e.seconds == interval * qe;
    assert r.seconds - e.seconds == interval * (qr - qe);
    if qr > qe {
      MulAtLeast(interval, qr - qe);
    } else if qe > qr {
      MulAtLeast(interval, qe - qr);
    }
  }
}
