/** The bucket boundaries of Histogram (src/histogram.cc) and the binary search over them. */
module Thresholds {
  const U64_MAX: nat := 0xffff_ffff_ffff_ffff

  // threshold_values_: the values below 6, ten decades of sixteen, and 2^64 - 1.
  const UNITS: seq<nat> := [0, 1, 2, 3, 4, 5]
  const DECADE0: seq<nat> := [6, 7, 8, 9, 10, 12, 14, 16, 18, 20, 25, 30, 35, 40, 45, 50]
  const DECADE1: seq<nat> := [60, 70, 80, 90, 100, 120, 140, 160, 180, 200, 250, 300, 350, 400, 450, 500]
  const DECADE2: seq<nat> :=
    [600, 700, 800, 900, 1000, 1200, 1400, 1600, 1800, 2000, 2500, 3000, 3500, 4000, 4500, 5000]
  const DECADE3: seq<nat> :=
    [6000, 7000, 8000, 9000, 10000, 12000, 14000, 16000, 18000, 20000, 25000, 30000, 35000, 40000, 45000, 50000]
  const DECADE4: seq<nat> :=
    [60000, 70000, 80000, 90000, 100000, 120000, 140000, 160000, 180000, 200000,
     250000, 300000, 350000, 400000, 450000, 500000]
  const DECADE5: seq<nat> :=
    [600000, 700000, 800000, 900000, 1000000, 1200000, 1400000, 1600000, 1800000, 2000000,
     2500000, 3000000, 3500000, 4000000, 4500000, 5000000]
  const DECADE6: seq<nat> :=
    [6000000, 7000000, 8000000, 9000000, 10000000, 12000000, 14000000, 16000000, 18000000, 20000000,
     25000000, 30000000, 35000000, 40000000, 45000000, 50000000]
  const DECADE7: seq<nat> :=
    [60000000, 70000000, 80000000, 90000000, 100000000, 120000000, 140000000, 160000000, 180000000, 200000000,
     250000000, 300000000, 350000000, 400000000, 450000000, 500000000]
  const DECADE8: seq<nat> :=
    [600000000, 700000000, 800000000, 900000000, 1000000000, 1200000000, 1400000000, 1600000000, 1800000000,
     2000000000, 2500000000, 3000000000, 3500000000, 4000000000, 4500000000, 5000000000]
  const DECADE9: seq<nat> :=
    [6000000000, 7000000000, 8000000000, 9000000000, 10000000000, 12000000000, 14000000000, 16000000000, 18000000000,
     20000000000, 25000000000, 30000000000, 35000000000, 40000000000, 45000000000, 50000000000]

  const DECADES := [DECADE0, DECADE1, DECADE2, DECADE3, DECADE4, DECADE5, DECADE6, DECADE7, DECADE8, DECADE9]

  const TOTAL_THRESHOLD_VALUES: nat := 6 + 16 * 10 + 1
  const BUCKETS: nat := TOTAL_THRESHOLD_VALUES - 1

  /** threshold_values_[i]. */
  function Threshold(i: nat): nat
    requires i < TOTAL_THRESHOLD_VALUES
  {
    if i < 6 then UNITS[i]
    else if i < BUCKETS then
      DecadeSizes();
      DECADES[(i - 6) / 16][(i - 6) % 16]
    else U64_MAX
  }

  lemma DecadeSizes()
    ensures |DECADES| == 10
    ensures forall d :: 0 <= d < 10 ==> |DECADES[d]| == 16
  {}

  ghost predicate Ascending(s: seq<nat>) {
    forall i :: 0 <= i < |s| - 1 ==> s[i] < s[i + 1]
  }

  lemma DecadeAscends(d: nat)
    requires d < 10
    ensures |DECADES[d]| == 16 && Ascending(DECADES[d]) && DECADES[d][15] < U64_MAX
    ensures d < 9 ==> DECADES[d][15] < DECADES[d + 1][0]
  {
    if d < 3 {
      LowDecadeAscends(d);
    } else if d < 6 {
      MiddleDecadeAscends(d);
    } else {
      HighDecadeAscends(d);
    }
  }

  lemma LowDecadeAscends(d: nat)
    requires d < 3
    ensures |DECADES[d]| == 16 && Ascending(DECADES[d]) && DECADES[d][15] < DECADES[d + 1][0] < U64_MAX
  {
    match d
    case 0 =>
    case 1 =>
    case _ =>
  }

  lemma MiddleDecadeAscends(d: nat)
    requires 3 <= d < 6
    ensures |DECADES[d]| == 16 && Ascending(DECADES[d]) && DECADES[d][15] < DECADES[d + 1][0] < U64_MAX
  {
    match d
    case 3 =>
    case 4 =>
    case _ =>
  }

  lemma HighDecadeAscends(d: nat)
    requires 6 <= d < 10
    ensures |DECADES[d]| == 16 && Ascending(DECADES[d]) && DECADES[d][15] < U64_MAX
    ensures d < 9 ==> DECADES[d][15] < DECADES[d + 1][0]
  {
    match d
    case 6 =>
    case 7 =>
    case 8 =>
    case _ =>
  }

  lemma ThresholdsAscend(i: nat)
    requires i < BUCKETS
    ensures Threshold(i) < Threshold(i + 1)
  {
    if i >= 6 {
      var d := (i - 6) / 16;
      DecadeAscends(d);
      assert (i - 6) % 16 < 15 ==> (i - 5) / 16 == d && (i - 5) % 16 == (i - 6) % 16 + 1;
      assert (i - 6) % 16 == 15 ==> (i - 5) / 16 == d + 1 && (i - 5) % 16 == 0;
    }
  }

  ghost predicate TenTimes(low: seq<nat>, high: seq<nat>) {
    |low| == |high| == 16 && forall k :: 0 <= k < 16 ==> high[k] == 10 * low[k]
  }

  lemma LowDecadesRepeat()
    ensures TenTimes(DECADE0, DECADE1) && TenTimes(DECADE1, DECADE2) && TenTimes(DECADE2, DECADE3)
  {}

  lemma MiddleDecadesRepeat()
    ensures TenTimes(DECADE3, DECADE4) && TenTimes(DECADE4, DECADE5) && TenTimes(DECADE5, DECADE6)
  {}

  lemma HighDecadesRepeat()
    ensures TenTimes(DECADE6, DECADE7) && TenTimes(DECADE7, DECADE8) && TenTimes(DECADE8, DECADE9)
  {}

  /** From 6 on the thresholds repeat, ten times larger, every sixteen. */
  lemma ThresholdsRepeat(i: nat)
    requires 6 <= i && i + 16 < BUCKETS
    ensures Threshold(i + 16) == 10 * Threshold(i)
  {
    var d, k := (i - 6) / 16, (i - 6) % 16;
    assert (i + 16 - 6) / 16 == d + 1 && (i + 16 - 6) % 16 == k;
    DecadesRepeat(d);
  }

  lemma DecadesRepeat(d: nat)
    requires d < 9
    ensures TenTimes(DECADES[d], DECADES[d + 1])
  {
    LowDecadesRepeat();
    MiddleDecadesRepeat();
    HighDecadesRepeat();
    hide TenTimes;
    match d
    case 0 =>
    case 1 =>
    case 2 =>
    case 3 =>
    case 4 =>
    case 5 =>
    case 6 =>
    case 7 =>
    case _ =>
  }

  /** Up to 50 they go in steps of 1, then, from 10, of 2, then, from 20, of 5; the last is 2^64 - 1. */
  lemma FirstThresholdsStep(i: nat)
    requires i < 22
    ensures Threshold(i) == if i <= 10 then i else if i <= 15 then 2 * (i - 5) else 5 * (i - 11)
    ensures Threshold(BUCKETS) == U64_MAX
  {
    if i >= 6 {
      assert (i - 6) / 16 == 0 && (i - 6) % 16 == i - 6;
    }
  }

  lemma {:induction false} ThresholdsMonotone(i: nat, j: nat)
    requires i <= j < TOTAL_THRESHOLD_VALUES
    ensures Threshold(i) <= Threshold(j)
    ensures i < j ==> Threshold(i) < Threshold(j)
  {
    if i < j {
      ThresholdsMonotone(i, j - 1);
      ThresholdsAscend(j - 1);
    }
  }

  /** v belongs to bucket b: threshold b is at most v and the next one is above it. The last bucket also
      takes the largest value, 2^64 - 1, which no half-open interval of the table contains. */
  predicate InBucket(b: nat, v: nat) {
    b < BUCKETS && Threshold(b) <= v && (b == BUCKETS - 1 || v < Threshold(b + 1))
  }

  lemma BucketUnique(b: nat, c: nat, v: nat)
    requires InBucket(b, v) && InBucket(c, v)
    ensures b == c
  {
    hide Threshold;
    if b < c {
      ThresholdsMonotone(b + 1, c);
    } else if c < b {
      ThresholdsMonotone(c + 1, b);
    }
  }

  /** The bucket of v, found by looking down from b. */
  function BucketDown(v: nat, b: nat): (r: nat)
    requires b < BUCKETS && (b == BUCKETS - 1 || v < Threshold(b + 1))
    ensures InBucket(r, v)
  {
    if b == 0 || Threshold(b) <= v then b else BucketDown(v, b - 1)
  }

  function BucketOf(v: nat): (b: nat)
    ensures InBucket(b, v)
  {
    BucketDown(v, BUCKETS - 1)
  }

  /** A bucket holds exactly the values below the next threshold that no earlier bucket holds. */
  lemma BucketAtMostIff(v: nat, b: nat)
    requires b < BUCKETS - 1
    ensures BucketOf(v) <= b <==> v < Threshold(b + 1)
  {
    hide Threshold, BucketOf;
    var c := BucketOf(v);
    if c <= b {
      ThresholdsMonotone(c + 1, b + 1);
    } else {
      ThresholdsMonotone(b + 1, c);
    }
  }

  /** Where the search stands: the buckets below `left` end at or below v, those above `right` begin above it. */
  ghost predicate Narrowed(left: int, right: int, v: nat) {
    && 0 <= left <= right + 1 <= BUCKETS
    && (left > 0 ==> Threshold(left) <= v)
    && (right < BUCKETS - 1 ==> v < Threshold(right + 1))
  }

  lemma NarrowedEnd(left: int, right: int, v: nat)
    requires Narrowed(left, right, v) && left > right
    ensures left == BUCKETS && BucketOf(v) == BUCKETS - 1
  {
    assert Threshold(0) == 0;
    ThresholdsMonotone(BUCKETS - 1, BUCKETS);
    BucketUnique(BUCKETS - 1, BucketOf(v), v);
  }

  /** The search loop of Histogram::add: it ends with `mid` at the bucket of v, also for v == 2^64 - 1,
      where no comparison succeeds and the loop runs out. */
  method Search(v: nat) returns (mid: nat)
    requires v <= U64_MAX
    ensures mid < BUCKETS && mid == BucketOf(v)
  {
    hide Threshold, BucketOf;
    var left, right := 0, TOTAL_THRESHOLD_VALUES - 2;
    mid := 0;
    while left <= right
      invariant Narrowed(left, right, v) && mid < BUCKETS
      invariant left == BUCKETS ==> mid == BUCKETS - 1
      decreases right - left
    {
      mid := (left + right) / 2;
      assert left <= mid <= right;
      if Threshold(mid) <= v && v < Threshold(mid + 1) {
        BucketUnique(mid, BucketOf(v), v);
        return;
      } else if v < Threshold(mid) {
        right := mid - 1;
      } else {
        left := mid + 1;
      }
    }
    NarrowedEnd(left, right, v);
  }
}
