/**
 The time buckets a base station's metrics are counted in: aligned to the epoch,
 a whole number of seconds wide. Instants are nanoseconds since the epoch.
 */
module Buckets {
  import opened Wrappers

  const MAX_METRICS_BUCKETS := 10000
  const NANOS := 1_000_000_000

  datatype MetricsError = InvalidMetricsRequest

  /** Integer division as Go does it, towards zero. */
  function Quotient(a: int, b: int): int
    requires b > 0
  {
    if a >= 0 then a / b else -(-a / b)
  }

  /** Whole seconds since the epoch, rounded down. */
  function Unix(t: int): int {
    t / NANOS
  }

  /** The first bucket of a window, and how many the window needs. */
  function BucketRange(start: int, end: int, interval: int): (int, int)
    requires interval > 0
  {
    var first := Quotient(Unix(start), interval);
    var last := Quotient(Unix(end - 1), interval);
    if last < first then (first, 0) else (first, last - first + 1)
  }

  function BucketStart(index: int, interval: int): int {
    index * interval * NANOS
  }

  /** The numeric part of the check: the window of the buckets of an accepted request. */
  function ValidateMetricsRequest(start: Option<int>, end: Option<int>, interval: int): Result<(int, int), MetricsError> {
    if interval <= 0 || start.None? || end.None? || end.value <= start.value || Unix(start.value) < 0 || Unix(end.value) <= 0
    then Failure(InvalidMetricsRequest)
    else if BucketRange(start.value, end.value, interval).1 > MAX_METRICS_BUCKETS then Failure(InvalidMetricsRequest)
    else Success((start.value, end.value))
  }

  // ----- the cover -----

  /** Rounding down to seconds first, then to buckets, is rounding down to buckets. */
  lemma {:induction false} FloorsCompose(t: int, interval: int)
    requires t >= 0 && interval > 0
    ensures var i := Quotient(Unix(t), interval);
            BucketStart(i, interval) <= t < BucketStart(i + 1, interval)
  {
    var seconds := Unix(t);
    var i := seconds / interval;
    assert i * interval <= seconds < (i + 1) * interval;
    assert i * interval * NANOS <= seconds * NANOS <= t;
    assert t < (seconds + 1) * NANOS <= (i + 1) * interval * NANOS;
  }

  lemma {:induction false} StartsAscend(i: int, j: int, interval: int)
    requires i <= j && interval > 0
    ensures BucketStart(i, interval) <= BucketStart(j, interval)
    ensures BucketStart(j, interval) == BucketStart(i, interval) + (j - i) * (interval * NANOS)
  {
    assert j * interval == i * interval + (j - i) * interval;
    assert (j - i) * interval >= 0;
    assert (j - i) * (interval * NANOS) == (j - i) * interval * NANOS;
  }

  /** A dividend's sign only changes the quotient's: it is rounded towards zero. */
  lemma QuotientRoundsTowardsZero(a: int, b: int)
    requires b > 0
    ensures Quotient(-a, b) == -Quotient(a, b)
  {
  }

  /** A window needs no bucket exactly when it ends before its first one begins. */
  lemma {:induction false} NoBucketsExactlyWhen(start: int, end: int, interval: int)
    requires interval > 0 && 0 <= start && 0 < end
    ensures var (first, count) := BucketRange(start, end, interval);
            count >= 0 && (count == 0 <==> end <= BucketStart(first, interval))
  {
    FloorsCompose(end - 1, interval);
    var first, last := Quotient(Unix(start), interval), Quotient(Unix(end - 1), interval);
    if last < first {
      StartsAscend(last + 1, first, interval);
    } else {
      StartsAscend(first, last, interval);
    }
  }

  /** The bucket has time in common with the window. */
  predicate Meets(index: int, interval: int, start: int, end: int) {
    BucketStart(index, interval) < end && start < BucketStart(index + 1, interval)
  }

  lemma BetweenMeets(first: int, i: int, last: int, interval: int, start: int, end: int)
    requires first <= i <= last && interval > 0
    requires Meets(first, interval, start, end) && Meets(last, interval, start, end)
    ensures Meets(i, interval, start, end)
  {
    StartsAscend(i, last, interval);
    StartsAscend(first + 1, i + 1, interval);
  }

  /** The window lies in the buckets from its first to its last. */
  lemma {:induction false} WindowIsCovered(start: int, end: int, interval: int)
    requires interval > 0 && 0 <= start < end
    ensures var first, last := Quotient(Unix(start), interval), Quotient(Unix(end - 1), interval);
            && first <= last
            && BucketStart(first, interval) <= start < BucketStart(first + 1, interval)
            && BucketStart(last, interval) < end <= BucketStart(last + 1, interval)
            && BucketStart(first, interval) < end && start < BucketStart(last + 1, interval)
  {
    FloorsCompose(start, interval);
    FloorsCompose(end - 1, interval);
    var first, last := Quotient(Unix(start), interval), Quotient(Unix(end - 1), interval);
    if last < first {
      StartsAscend(last + 1, first, interval);
    }
  }

  /**
   The buckets of an accepted request: 1 to 10000 of them, covering the window; each
   of them meets the window, so none could be left out.
   */
  lemma {:induction false} AcceptedRequestsAreCovered(start: Option<int>, end: Option<int>, interval: int)
    requires ValidateMetricsRequest(start, end, interval).Success?
    ensures var (first, count) := BucketRange(start.value, end.value, interval);
            && 1 <= count <= MAX_METRICS_BUCKETS
            && BucketStart(first, interval) <= start.value && end.value <= BucketStart(first + count, interval)
            && forall i | first <= i < first + count :: Meets(i, interval, start.value, end.value)
  {
    WindowIsCovered(start.value, end.value, interval);
    var (first, count) := BucketRange(start.value, end.value, interval);
    forall i | first <= i < first + count ensures Meets(i, interval, start.value, end.value) {
      BetweenMeets(first, i, first + count - 1, interval, start.value, end.value);
    }
  }

  /** A request is refused for its buckets only when covering the window takes more than 10000 of them. */
  lemma {:induction false} RefusedCoversAreTooLong(start: int, end: int, interval: int)
    requires interval > 0 && 0 <= start < end && NANOS <= end
    ensures ValidateMetricsRequest(Some(start), Some(end), interval).Failure?
            <==> BucketStart(BucketRange(start, end, interval).0 + MAX_METRICS_BUCKETS, interval) < end
  {
    FloorsCompose(start, interval);
    FloorsCompose(end - 1, interval);
    var first, last := Quotient(Unix(start), interval), Quotient(Unix(end - 1), interval);
    if last < first + MAX_METRICS_BUCKETS {
      StartsAscend(last + 1, first + MAX_METRICS_BUCKETS, interval);
    } else {
      StartsAscend(first + MAX_METRICS_BUCKETS, last, interval);
    }
  }

  /**
   A request is accepted exactly when its interval is positive and its window, not before
   the epoch and ending at least a second after it, is not empty and within 10000 buckets of
   its first; the window is then the one asked for.
   */
  lemma {:induction false} AcceptedExactlyWhen(start: Option<int>, end: Option<int>, interval: int, window: (int, int))
    ensures ValidateMetricsRequest(start, end, interval) == Success(window) <==>
            && interval > 0 && start == Some(window.0) && end == Some(window.1)
            && 0 <= window.0 < window.1 && 1_000_000_000 <= window.1
            && window.1 <= (window.0 / 1_000_000_000 / interval + 10000) * interval * 1_000_000_000
  {
    if interval > 0 && start == Some(window.0) && end == Some(window.1) && 0 <= window.0 < window.1 && 1_000_000_000 <= window.1 {
      RefusedCoversAreTooLong(window.0, window.1, interval);
    }
  }

  // ----- message counts -----

  /** The count of a bucket the sparse map may not hold. */
  function CountAt(counts: map<int, int>, index: int): int {
    if index in counts then counts[index] else 0
  }

  function SumOf(dense: seq<int>): int {
    if dense == [] then 0 else SumOf(dense[..|dense| - 1]) + dense[|dense| - 1]
  }

  /** The sum of a map's values, in whatever order they are taken. */
  ghost function Total(counts: map<int, int>): int
    decreases |counts|
  {
    if exists k :: k in counts then (var k :| k in counts; counts[k] + Total(counts - {k})) else 0
  }

  lemma {:induction false} TotalWithout(counts: map<int, int>, k: int)
    requires k in counts
    ensures Total(counts) == counts[k] + Total(counts - {k})
    decreases |counts|
  {
    var j :| j in counts && Total(counts) == counts[j] + Total(counts - {j});
    if j != k {
      TotalWithout(counts - {j}, k);
      TotalWithout(counts - {k}, j);
      assert counts - {j} - {k} == counts - {k} - {j};
    }
  }

  /** The part of the counts that falls into a range of buckets. */
  function Within(counts: map<int, int>, first: int, n: nat): map<int, int> {
    map k | k in counts && first <= k < first + n :: counts[k]
  }

  /** A dense array that agrees with the sparse counts at every bucket adds up to exactly what they hold in the range. */
  lemma {:induction false} DenseSumsToTheTotal(counts: map<int, int>, first: int, dense: seq<int>)
    requires forall i | 0 <= i < |dense| :: dense[i] == CountAt(counts, first + i)
    ensures SumOf(dense) == Total(Within(counts, first, |dense|))
    decreases |dense|
  {
    if dense == [] {
      assert Within(counts, first, 0) == map[];
    } else {
      var n := |dense| - 1;
      DenseSumsToTheTotal(counts, first, dense[..n]);
      var within := Within(counts, first, n + 1);
      if first + n in counts {
        TotalWithout(within, first + n);
        assert within - {first + n} == Within(counts, first, n);
      } else {
        assert within == Within(counts, first, n);
      }
    }
  }

  /** The counts as a dense array ordered by time, and the start of its last bucket; no bucket leaves no time. */
  method DensifyMessageBuckets(counts: map<int, int>, start: int, end: int, interval: int)
    returns (received: seq<int>, lastBucket: Option<int>)
    requires interval > 0
    ensures var (first, count) := BucketRange(start, end, interval);
            && |received| == count
            && (forall i | 0 <= i < count :: received[i] == CountAt(counts, first + i))
            && SumOf(received) == Total(Within(counts, first, count))
            && lastBucket == if count == 0 then None else Some(BucketStart(first + count - 1, interval))
  {
    var (first, count) := BucketRange(start, end, interval);
    if count <= 0 {
      assert Within(counts, first, 0) == map[];
      return [], None;
    }
    var dense := new int[count];
    for i := 0 to count
      invariant forall j | 0 <= j < i :: dense[j] == CountAt(counts, first + j)
    {
      dense[i] := CountAt(counts, first + i);
    }
    DenseSumsToTheTotal(counts, first, dense[..]);
    return dense[..], Some(BucketStart(first + count - 1, interval));
  }
}
