/**
 The share of each time bucket a base station was online, from the intervals it
 was connected. Instants are nanoseconds since the epoch; fractions are exact.
 */
module Availability {
  import opened Buckets
  import opened Wrappers

  /** A connected interval; an active one has no end yet. */
  datatype OnlineInterval = OnlineInterval(start: int, end: Option<int>)

  const MAX_INT64 := 0x7FFF_FFFF_FFFF_FFFF
  const TWO_TO_THE_64 := 0x1_0000_0000_0000_0000

  /** A product as a 64-bit Duration holds it. */
  function Int64(x: int): int {
    var low := x % TWO_TO_THE_64;
    if low <= MAX_INT64 then low else low - TWO_TO_THE_64
  }

  /** The width of a bucket as the code computes it: seconds times nanoseconds, in 64 bits. */
  function BucketWidth(interval: int): int {
    Int64(interval * NANOS)
  }

  function EndOf(iv: OnlineInterval, now: int): int {
    if iv.end.Some? then iv.end.value else now
  }

  /** How long [a, b) and [c, d) overlap. */
  function Overlap(a: int, b: int, c: int, d: int): nat {
    var s := if c > a then c else a;
    var e := if d < b then d else b;
    if e > s then e - s else 0
  }

  /** The raw time online in [from, until): the overlaps of all intervals with it. */
  function Online(ivs: seq<OnlineInterval>, now: int, from: int, until: int): nat {
    if ivs == [] then 0
    else Online(ivs[..|ivs| - 1], now, from, until)
         + Overlap(ivs[|ivs| - 1].start, EndOf(ivs[|ivs| - 1], now), from, until)
  }

  function Seconds(t: int): real {
    t as real / 1_000_000_000.0
  }

  function Clamped(fraction: real): real {
    if fraction > 1.0 then 1.0 else if fraction < 0.0 then 0.0 else fraction
  }

  /** The fraction a bucket reports for the raw time online in it. */
  function Fraction(online: int, interval: int): real
    requires interval > 0
  {
    Clamped(Seconds(online) / interval as real)
  }

  /** The raw time online in bucket i of a window. */
  function BucketOnline(ivs: seq<OnlineInterval>, now: int, index: int, interval: int): nat {
    Online(ivs, now, BucketStart(index, interval), BucketStart(index, interval) + BucketWidth(interval))
  }

  /** The reported fraction of bucket i, for the time online in it. */
  predicate Reported(ivs: seq<OnlineInterval>, now: int, first: int, i: int, interval: int, fraction: real)
    requires interval > 0
  {
    fraction == Fraction(BucketOnline(ivs, now, first + i, interval), interval)
  }

  lemma SecondsAdd(a: int, b: int)
    ensures Seconds(a + b) == Seconds(a) + Seconds(b)
  {
  }

  /** The seconds online between two instants. */
  method OnlineSeconds(ivs: seq<OnlineInterval>, now: int, bStart: int, bEnd: int) returns (onlineSeconds: real)
    ensures onlineSeconds == Seconds(Online(ivs, now, bStart, bEnd))
  {
    onlineSeconds := 0.0;
    for k := 0 to |ivs|
      invariant onlineSeconds == Seconds(Online(ivs[..k], now, bStart, bEnd))
    {
      var ivEnd := now;
      if ivs[k].end.Some? {
        ivEnd := ivs[k].end.value;
      }
      assert ivs[..k + 1][..k] == ivs[..k];
      SecondsAdd(Online(ivs[..k], now, bStart, bEnd), Overlap(ivs[k].start, ivEnd, bStart, bEnd));
      onlineSeconds := onlineSeconds + Seconds(Overlap(ivs[k].start, ivEnd, bStart, bEnd));
    }
    assert ivs[..|ivs|] == ivs;
  }

  /** The online fraction of every bucket, and the start of the last one. */
  method ComputeAvailabilityBuckets(ivs: seq<OnlineInterval>, start: int, end: int, now: int, interval: int)
    returns (availability: seq<real>, lastBucket: Option<int>)
    requires interval > 0
    ensures var (first, count) := BucketRange(start, end, interval);
            && |availability| == count
            && (forall i | 0 <= i < count :: Reported(ivs, now, first, i, interval, availability[i]))
            && lastBucket == if count == 0 then None else Some(BucketStart(first + count - 1, interval))
  {
    var (first, count) := BucketRange(start, end, interval);
    if count <= 0 {
      return [], None;
    }
    var width := BucketWidth(interval);
    var fractions := new real[count];
    for i := 0 to count
      invariant forall j | 0 <= j < i :: Reported(ivs, now, first, j, interval, fractions[j])
    {
      var bStart := BucketStart(first + i, interval);
      var onlineSeconds := OnlineSeconds(ivs, now, bStart, bStart + width);
      var fraction := onlineSeconds / interval as real;
      if fraction > 1.0 {
        fraction := 1.0;
      }
      if fraction < 0.0 {
        fraction := 0.0;
      }
      fractions[i] := fraction;
    }
    return fractions[..], Some(BucketStart(first + count - 1, interval));
  }

  // ----- conservation -----

  /** Splitting a span of time splits the time online in it. */
  lemma {:induction false} OnlineSplits(ivs: seq<OnlineInterval>, now: int, from: int, mid: int, until: int)
    requires from <= mid <= until
    ensures Online(ivs, now, from, until) == Online(ivs, now, from, mid) + Online(ivs, now, mid, until)
  {
    if ivs == [] {
    } else {
      OnlineSplits(ivs[..|ivs| - 1], now, from, mid, until);
    }
  }

  /** The raw time online of n buckets from a first one. */
  function BucketsOnline(ivs: seq<OnlineInterval>, now: int, first: int, n: nat, interval: int): nat {
    if n == 0 then 0 else BucketsOnline(ivs, now, first, n - 1, interval) + BucketOnline(ivs, now, first + n - 1, interval)
  }

  lemma {:induction false} OnlineOfNoTime(ivs: seq<OnlineInterval>, now: int, t: int)
    ensures Online(ivs, now, t, t) == 0
  {
    if ivs == [] {
    } else {
      OnlineOfNoTime(ivs[..|ivs| - 1], now, t);
    }
  }

  lemma BucketEndsWhereTheNextStarts(ivs: seq<OnlineInterval>, now: int, index: int, interval: int)
    requires interval > 0 && interval * NANOS <= MAX_INT64
    ensures BucketOnline(ivs, now, index, interval) == Online(ivs, now, BucketStart(index, interval), BucketStart(index + 1, interval))
  {
    StartsAscend(index, index + 1, interval);
  }

  /** While a bucket's width fits in 64 bits, the buckets' times add up to the time online in the aligned window. */
  lemma {:induction false} BucketsConserveTime(ivs: seq<OnlineInterval>, now: int, first: int, n: nat, interval: int)
    requires interval > 0 && interval * NANOS <= MAX_INT64
    ensures BucketsOnline(ivs, now, first, n, interval)
            == Online(ivs, now, BucketStart(first, interval), BucketStart(first + n, interval))
  {
    if n == 0 {
      OnlineOfNoTime(ivs, now, BucketStart(first, interval));
    } else {
      BucketsConserveTime(ivs, now, first, n - 1, interval);
      StartsAscend(first, first + n - 1, interval);
      StartsAscend(first + n - 1, first + n, interval);
      BucketEndsWhereTheNextStarts(ivs, now, first + n - 1, interval);
      OnlineSplits(ivs, now, BucketStart(first, interval), BucketStart(first + n - 1, interval), BucketStart(first + n, interval));
    }
  }

  lemma {:induction false} BucketsBounded(iv: OnlineInterval, now: int, first: int, n: nat, interval: int)
    requires interval > 0
    ensures BucketsOnline([iv], now, first, n, interval) <= n * MAX_INT64
  {
    if n == 0 {
    } else {
      BucketsBounded(iv, now, first, n - 1, interval);
      assert [iv][..0] == [];
      assert Online([iv], now, BucketStart(first + n - 1, interval), BucketStart(first + n - 1, interval) + BucketWidth(interval))
             == Overlap(iv.start, EndOf(iv, now), BucketStart(first + n - 1, interval), BucketStart(first + n - 1, interval) + BucketWidth(interval));
      assert BucketWidth(interval) <= MAX_INT64;
    }
  }

  /** A window that was online throughout. */
  function Throughout(first: int, n: nat, interval: int): OnlineInterval {
    OnlineInterval(BucketStart(first, interval), Some(BucketStart(first + n, interval)))
  }

  lemma MoreThanTheLimit(n: nat, width: int)
    requires n > 0 && width > MAX_INT64
    ensures n * width > n * MAX_INT64
  {
    assert n * (width - MAX_INT64) > 0;
  }

  /** A bucket width beyond 64 bits wraps around: a station that was online throughout loses time. */
  lemma WideBucketsLoseTime(now: int, first: int, n: nat, interval: int)
    requires interval > 0 && n > 0 && interval * NANOS > MAX_INT64
    ensures var ivs := [Throughout(first, n, interval)];
            BucketsOnline(ivs, now, first, n, interval) < Online(ivs, now, BucketStart(first, interval), BucketStart(first + n, interval))
  {
    var iv := Throughout(first, n, interval);
    BucketsBounded(iv, now, first, n, interval);
    StartsAscend(first, first + n, interval);
    assert [iv][..0] == [];
    MoreThanTheLimit(n, interval * NANOS);
  }

  /** The buckets conserve time, whatever the intervals, exactly when the bucket width fits in a 64-bit Duration. */
  lemma {:induction false} TimeIsConservedExactlyWhen(now: int, first: int, n: nat, interval: int)
    requires interval > 0 && n > 0
    ensures (forall ivs :: BucketsOnline(ivs, now, first, n, interval)
                           == Online(ivs, now, BucketStart(first, interval), BucketStart(first + n, interval)))
            <==> interval * NANOS <= MAX_INT64
  {
    if interval * NANOS <= MAX_INT64 {
      forall ivs ensures BucketsOnline(ivs, now, first, n, interval)
                         == Online(ivs, now, BucketStart(first, interval), BucketStart(first + n, interval)) {
        BucketsConserveTime(ivs, now, first, n, interval);
      }
    } else {
      WideBucketsLoseTime(now, first, n, interval);
    }
  }

  // ----- disjoint intervals -----

  ghost predicate Disjoint(ivs: seq<OnlineInterval>, now: int) {
    forall i, j | 0 <= i < j < |ivs| :: Overlap(ivs[i].start, EndOf(ivs[i], now), ivs[j].start, EndOf(ivs[j], now)) == 0
  }

  /** At any one instant at most one of the intervals is connected. */
  lemma {:induction false} AtMostOneAtATime(ivs: seq<OnlineInterval>, now: int, t: int)
    requires Disjoint(ivs, now)
    ensures Online(ivs, now, t, t + 1) <= 1
    ensures Online(ivs, now, t, t + 1) == 1 ==> exists i | 0 <= i < |ivs| :: ivs[i].start <= t < EndOf(ivs[i], now)
  {
    if ivs == [] {
    } else {
      var n := |ivs| - 1;
      AtMostOneAtATime(ivs[..n], now, t);
      forall i | 0 <= i < n && ivs[i].start <= t < EndOf(ivs[i], now)
        ensures !(ivs[n].start <= t < EndOf(ivs[n], now))
      {
        assert Overlap(ivs[i].start, EndOf(ivs[i], now), ivs[n].start, EndOf(ivs[n], now)) == 0;
      }
    }
  }

  /** Disjoint intervals are never online longer than the time that passes. */
  lemma {:induction false} DisjointNeverExceeds(ivs: seq<OnlineInterval>, now: int, from: int, until: int)
    requires Disjoint(ivs, now) && from <= until
    ensures Online(ivs, now, from, until) <= until - from
    decreases until - from
  {
    if from == until {
      OnlineOfNoTime(ivs, now, from);
    } else {
      DisjointNeverExceeds(ivs, now, from, until - 1);
      OnlineSplits(ivs, now, from, until - 1, until);
      AtMostOneAtATime(ivs, now, until - 1);
    }
  }

  /** How many of the intervals are connected at an instant. */
  function ConnectedAt(ivs: seq<OnlineInterval>, now: int, t: int): nat {
    if ivs == [] then 0
    else
      var iv := ivs[|ivs| - 1];
      ConnectedAt(ivs[..|ivs| - 1], now, t) + if iv.start <= t && t < (match iv.end { case Some(end) => end case None => now }) then 1 else 0
  }

  function Instants(ivs: seq<OnlineInterval>, now: int, from: int, until: int): nat
    decreases until - from
  {
    if until <= from then 0 else Instants(ivs, now, from, until - 1) + ConnectedAt(ivs, now, until - 1)
  }

  lemma {:induction false} OnlineAtAnInstant(ivs: seq<OnlineInterval>, now: int, t: int)
    ensures Online(ivs, now, t, t + 1) == ConnectedAt(ivs, now, t)
  {
    if ivs == [] {
    } else {
      OnlineAtAnInstant(ivs[..|ivs| - 1], now, t);
    }
  }

  /** The time online is, instant by instant, the number of intervals connected then; an active interval is connected until now. */
  lemma {:induction false} OnlineCountsInstants(ivs: seq<OnlineInterval>, now: int, from: int, until: int)
    requires from <= until
    ensures Online(ivs, now, from, until) == Instants(ivs, now, from, until)
    decreases until - from
  {
    if from == until {
      OnlineOfNoTime(ivs, now, from);
    } else {
      OnlineCountsInstants(ivs, now, from, until - 1);
      OnlineSplits(ivs, now, from, until - 1, until);
      OnlineAtAnInstant(ivs, now, until - 1);
    }
  }

  function SumOfReals(s: seq<real>): real {
    if s == [] then 0.0 else SumOfReals(s[..|s| - 1]) + s[|s| - 1]
  }

  lemma SecondsAgainst(online: int, interval: int)
    ensures online < interval * NANOS <==> Seconds(online) < interval as real
    ensures online == interval * NANOS <==> Seconds(online) == interval as real
  {
    assert (interval * NANOS) as real == interval as real * 1_000_000_000.0;
  }

  lemma RatioAgainstOne(x: real, width: real)
    requires width > 0.0
    ensures x < width <==> x / width < 1.0
    ensures x == width <==> x / width == 1.0
    ensures x >= 0.0 ==> x / width >= 0.0
    ensures x / width * width == x
  {
  }

  /** A bucket reports its time exactly while that is no longer than the bucket, and is full from there on. */
  lemma FractionIsExactUpToFull(online: nat, interval: int)
    requires interval > 0
    ensures 0.0 <= Fraction(online, interval) <= 1.0
    ensures online <= interval * NANOS ==>
              Fraction(online, interval) == Seconds(online) / interval as real && Fraction(online, interval) * interval as real == Seconds(online)
    ensures Fraction(online, interval) == 1.0 <==> online >= interval * NANOS
  {
    SecondsAgainst(online, interval);
    RatioAgainstOne(Seconds(online), interval as real);
  }

  lemma WidthFits(interval: int)
    requires interval > 0 && interval * NANOS <= MAX_INT64
    ensures BucketWidth(interval) == interval * NANOS
  {
  }

  /** Of disjoint intervals no bucket is online longer than it is wide. */
  lemma DisjointFits(ivs: seq<OnlineInterval>, now: int, from: int, interval: int)
    requires interval > 0 && interval * NANOS <= MAX_INT64 && Disjoint(ivs, now)
    ensures Online(ivs, now, from, from + BucketWidth(interval)) <= interval * NANOS
  {
    WidthFits(interval);
    DisjointNeverExceeds(ivs, now, from, from + BucketWidth(interval));
  }

  /** Fractions of buckets of that many seconds stand for exactly that time online. */
  predicate Exact(fraction: real, online: int, seconds: real) {
    fraction * seconds == Seconds(online)
  }

  /** For disjoint intervals no clamp changes a value. */
  lemma {:induction false} ClampsChangeNothing(ivs: seq<OnlineInterval>, now: int, from: int, interval: int, online: int)
    requires interval > 0 && interval * NANOS <= MAX_INT64 && Disjoint(ivs, now)
    requires online == Online(ivs, now, from, from + BucketWidth(interval))
    ensures Fraction(online, interval) == Seconds(online) / interval as real
    ensures Exact(Fraction(online, interval), online, interval as real)
  {
    DisjointFits(ivs, now, from, interval);
    FractionIsExactUpToFull(online, interval);
  }

  lemma ExactAdds(a: real, x: int, b: real, y: int, seconds: real)
    requires Exact(a, x, seconds) && Exact(b, y, seconds)
    ensures Exact(a + b, x + y, seconds)
  {
    assert (a + b) * seconds == a * seconds + b * seconds;
    SecondsAdd(x, y);
  }

  lemma ReportedIsExact(ivs: seq<OnlineInterval>, now: int, first: int, i: int, interval: int, fraction: real)
    requires interval > 0 && interval * NANOS <= MAX_INT64 && Disjoint(ivs, now)
    requires Reported(ivs, now, first, i, interval, fraction)
    ensures Exact(fraction, BucketOnline(ivs, now, first + i, interval), interval as real)
  {
    ClampsChangeNothing(ivs, now, BucketStart(first + i, interval), interval, BucketOnline(ivs, now, first + i, interval));
  }

  /** The fractions of disjoint intervals, each times the bucket width, add up to the buckets' time online. */
  lemma {:induction false} ReportedAddUp(ivs: seq<OnlineInterval>, now: int, first: int, interval: int, availability: seq<real>)
    requires interval > 0 && interval * NANOS <= MAX_INT64 && Disjoint(ivs, now)
    requires forall i | 0 <= i < |availability| :: Reported(ivs, now, first, i, interval, availability[i])
    ensures Exact(SumOfReals(availability), BucketsOnline(ivs, now, first, |availability|, interval), interval as real)
    decreases |availability|
  {
    if availability == [] {
    } else {
      var n := |availability| - 1;
      ReportedAddUp(ivs, now, first, interval, availability[..n]);
      ReportedIsExact(ivs, now, first, n, interval, availability[n]);
      ExactAdds(SumOfReals(availability[..n]), BucketsOnline(ivs, now, first, n, interval),
                availability[n], BucketOnline(ivs, now, first + n, interval), interval as real);
    }
  }

  /**
   The availability of disjoint intervals is exact: the fractions, each times the
   bucket width, add up to the time online in the aligned window.
   */
  lemma {:induction false} FractionsSumToTheTimeOnline(ivs: seq<OnlineInterval>, now: int, first: int, interval: int, availability: seq<real>)
    requires interval > 0 && interval * NANOS <= MAX_INT64 && Disjoint(ivs, now)
    requires forall i | 0 <= i < |availability| :: Reported(ivs, now, first, i, interval, availability[i])
    ensures Exact(SumOfReals(availability),
                  Online(ivs, now, BucketStart(first, interval), BucketStart(first + |availability|, interval)),
                  interval as real)
  {
    ReportedAddUp(ivs, now, first, interval, availability);
    BucketsConserveTime(ivs, now, first, |availability|, interval);
  }
}
