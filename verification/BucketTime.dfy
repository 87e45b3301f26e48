/** Time arithmetic of the aggregator's overflow buckets. A time is a number of nanoseconds since
    the Unix epoch, a duration a number of nanoseconds. */
module BucketTime {

  const SECOND := 1_000_000_000
  const MINUTE := 60 * SECOND
  const OVERFLOW_BUCKET_DIV := 12

  // Times are truncated to multiples counted from year 1, this many seconds before the Unix epoch.
  const YEAR_ONE := 62_135_596_800

  /** The days of the 1969 years before 1970, a leap day in every fourth but for the centuries, and in every fourth of
      those. */
  lemma YearOneIsBeforeTheEpoch()
    ensures YEAR_ONE == (1969 * 365 + 1969 / 4 - 1969 / 100 + 1969 / 400) * 86_400
  {
  }

  /** The widths New can choose. */
  ghost predicate WholeSeconds(bucket: int) {
    SECOND <= bucket <= MINUTE && bucket % SECOND == 0
  }

  function Truncate(at: int, bucket: int): int
    requires bucket > 0
  {
    at - (at + YEAR_ONE * SECOND) % bucket
  }

  /** The start of the bucket that holds `at`, in Unix seconds. */
  function SlotKey(at: int, bucket: int): int
    requires bucket > 0
  {
    Truncate(at, bucket) / SECOND
  }

  /** Whether the slot starting at key (Unix seconds) starts before cutoff. */
  predicate SlotBefore(key: int, cutoff: int) {
    key * SECOND < cutoff
  }

  /** Bucket boundaries, numbered from year 1. */
  function Boundary(n: int, bucket: int): int {
    n * bucket - YEAR_ONE * SECOND
  }

  /** A slot key is a bucket boundary and its bucket holds the time it was computed from. */
  lemma {:induction false} SlotHolds(at: int, bucket: int)
    requires WholeSeconds(bucket)
    ensures SlotKey(at, bucket) * SECOND == Boundary((at + YEAR_ONE * SECOND) / bucket, bucket)
    ensures SlotKey(at, bucket) * SECOND <= at < SlotKey(at, bucket) * SECOND + bucket
  {
    var x := at + YEAR_ONE * SECOND;
    var w := bucket / SECOND;
    assert bucket == w * SECOND;
    assert x - x % bucket == (x / bucket) * bucket;
    assert (x / bucket) * bucket == ((x / bucket) * w) * SECOND;
    assert Truncate(at, bucket) == ((x / bucket) * w - YEAR_ONE) * SECOND;
  }

  /** Buckets partition time: a boundary never falls strictly inside a bucket. */
  lemma {:induction false} SlotRespectsBoundary(at: int, bucket: int, n: int)
    requires WholeSeconds(bucket)
    ensures Boundary(n, bucket) <= at <==> Boundary(n, bucket) <= SlotKey(at, bucket) * SECOND
  {
    SlotHolds(at, bucket);
    var q := (at + YEAR_ONE * SECOND) / bucket;
    if q < n {
      assert (q + 1) * bucket <= n * bucket;
      assert (q + 1) * bucket == q * bucket + bucket;
    } else {
      assert n * bucket <= q * bucket;
    }
  }

  /** Earlier times have earlier slots. */
  lemma {:induction false} SlotMonotone(a: int, b: int, bucket: int)
    requires WholeSeconds(bucket)
    requires a <= b
    ensures SlotKey(a, bucket) <= SlotKey(b, bucket)
  {
    SlotHolds(a, bucket);
    SlotRespectsBoundary(b, bucket, (a + YEAR_ONE * SECOND) / bucket);
  }

  /** The longest and the shortest window. */
  method Extremes(windows: seq<int>) returns (maxW: int, minW: int)
    requires windows != []
    ensures minW in windows && forall w :: w in windows ==> minW <= w
    ensures maxW in windows && forall w :: w in windows ==> w <= maxW
  {
    maxW, minW := windows[0], windows[0];
    for i := 1 to |windows|
      invariant minW in windows && forall j :: 0 <= j < i ==> minW <= windows[j]
      invariant maxW in windows && forall j :: 0 <= j < i ==> windows[j] <= maxW
    {
      if windows[i] > maxW {
        maxW := windows[i];
      }
      if windows[i] < minW {
        minW := windows[i];
      }
    }
  }

  /** The overflow bucket width for a shortest window. Twelve buckets fit in the shortest window
      whenever twelve of the narrowest do, and no wider whole number of seconds up to a minute fits twelve times. */
  function BucketWidth(minW: int): (bucket: int)
    requires minW > 0
    ensures WholeSeconds(bucket)
    ensures OVERFLOW_BUCKET_DIV * bucket <= minW <==> OVERFLOW_BUCKET_DIV * SECOND <= minW
    ensures forall w :: WholeSeconds(w) && OVERFLOW_BUCKET_DIV * w <= minW ==> w <= bucket
  {
    var share := minW / OVERFLOW_BUCKET_DIV;
    var b := share - share % SECOND;
    if b > MINUTE then MINUTE else if b < SECOND then SECOND else b
  }
}
