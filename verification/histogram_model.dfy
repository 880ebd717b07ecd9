/** Histogram (src/histogram.cc, include/nebula/histogram.h): an incremental summary of 64-bit samples. */
module HistogramModel {
  import opened Words
  import opened Sequences
  import opened Thresholds

  /** The fields of a Histogram; total, count and buckets are uint64_t and wrap. */
  datatype Summary = Summary(min: nat, max: nat, total: nat, count: nat, buckets: seq<nat>)

  // ----- the statistics of a sequence of samples -----

  function Sum(samples: seq<nat>): nat {
    if samples == [] then 0 else Sum(samples[..|samples| - 1]) + samples[|samples| - 1]
  }

  function Least(samples: seq<nat>): nat {
    if samples == [] then U64_MAX else Min(Least(samples[..|samples| - 1]), samples[|samples| - 1])
  }

  function Greatest(samples: seq<nat>): nat {
    if samples == [] then 0 else Max(Greatest(samples[..|samples| - 1]), samples[|samples| - 1])
  }

  /** How many samples fall into bucket b. */
  function CountIn(samples: seq<nat>, b: nat): nat {
    if samples == [] then 0
    else CountIn(samples[..|samples| - 1], b) + (if BucketOf(samples[|samples| - 1]) == b then 1 else 0)
  }

  function Wrap(x: nat): nat {
    x % TWO_TO_THE_64
  }

  /** What a histogram of these samples must hold. */
  function Summarize(samples: seq<nat>): Summary {
    Summary(Least(samples), Greatest(samples), Wrap(Sum(samples)), Wrap(|samples|),
            seq(BUCKETS, (b: nat) => Wrap(CountIn(samples, b))))
  }

  // ----- Histogram::add and Histogram::merge on values -----

  function Add(h: Summary, v: nat): Summary
    requires |h.buckets| == BUCKETS
  {
    var b := BucketOf(v);
    Summary(Min(h.min, v), Max(h.max, v), Wrap(h.total + v), Wrap(h.count + 1),
            h.buckets[b := Wrap(h.buckets[b] + 1)])
  }

  function Merge(h: Summary, other: Summary): Summary
    requires |h.buckets| == |other.buckets| == BUCKETS
  {
    Summary(Min(h.min, other.min), Max(h.max, other.max), Wrap(h.total + other.total), Wrap(h.count + other.count),
            seq(BUCKETS, b requires 0 <= b < BUCKETS => Wrap(h.buckets[b] + other.buckets[b])))
  }

  lemma WrapMultiple(q: nat, x: nat)
    ensures Wrap(q * TWO_TO_THE_64 + x) == Wrap(x)
  {
    var k, r := x / TWO_TO_THE_64, x % TWO_TO_THE_64;
    assert q * TWO_TO_THE_64 + x == (q + k) * TWO_TO_THE_64 + r;
  }

  lemma WrapAdds(a: nat, b: nat)
    ensures Wrap(Wrap(a) + b) == Wrap(a + b)
    ensures Wrap(a + Wrap(b)) == Wrap(a + b)
  {
    var q, p := a / TWO_TO_THE_64, b / TWO_TO_THE_64;
    assert a == q * TWO_TO_THE_64 + Wrap(a) && b == p * TWO_TO_THE_64 + Wrap(b);
    hide Wrap;
    WrapMultiple(q, Wrap(a) + b);
    WrapMultiple(p, a + Wrap(b));
  }

  /** Adding a sample to the summary of `samples` gives the summary of one sample more. */
  lemma AddSummarizes(samples: seq<nat>, v: nat)
    ensures Add(Summarize(samples), v) == Summarize(samples + [v])
  {
    var more := samples + [v];
    assert more[..|samples|] == samples;
    WrapAdds(Sum(samples), v);
    WrapAdds(|samples|, 1);
    forall b | 0 <= b < BUCKETS ensures Add(Summarize(samples), v).buckets[b] == Summarize(more).buckets[b] {
      WrapAdds(CountIn(samples, b), 1);
    }
  }

  // ----- merging and order -----

  lemma {:induction false} StatsConcat(a: seq<nat>, b: seq<nat>, bucket: nat)
    ensures Sum(a + b) == Sum(a) + Sum(b)
    ensures Least(a + b) == Min(Least(a), Least(b))
    ensures Greatest(a + b) == Max(Greatest(a), Greatest(b))
    ensures CountIn(a + b, bucket) == CountIn(a, bucket) + CountIn(b, bucket)
  {
    if b == [] {
      assert a + b == a;
      LeastIsSmall(a);
    } else {
      assert (a + b)[..|a + b| - 1] == a + b[..|b| - 1];
      StatsConcat(a, b[..|b| - 1], bucket);
    }
  }

  lemma {:induction false} LeastIsSmall(a: seq<nat>)
    ensures Least(a) <= U64_MAX
  {
    if a != [] {
      LeastIsSmall(a[..|a| - 1]);
    }
  }

  /** Merging two summaries gives the summary of all their samples. */
  lemma MergeSummarizes(a: seq<nat>, b: seq<nat>)
    ensures Merge(Summarize(a), Summarize(b)) == Summarize(a + b)
  {
    hide Wrap, CountIn, Sum, Least, Greatest;
    StatsConcat(a, b, 0);
    WrapBoth(Sum(a), Sum(b));
    WrapBoth(|a|, |b|);
    forall i: nat | i < BUCKETS ensures Merge(Summarize(a), Summarize(b)).buckets[i] == Summarize(a + b).buckets[i] {
      StatsConcat(a, b, i);
      WrapBoth(CountIn(a, i), CountIn(b, i));
    }
  }

  lemma WrapBoth(a: nat, b: nat)
    ensures Wrap(Wrap(a) + Wrap(b)) == Wrap(a + b)
  {
    WrapAdds(a, b);
    WrapAdds(Wrap(a), b);
  }

  lemma {:induction false} StatsPermute(a: seq<nat>, b: seq<nat>, bucket: nat)
    requires multiset(a) == multiset(b)
    ensures Sum(a) == Sum(b) && Least(a) == Least(b) && Greatest(a) == Greatest(b)
    ensures CountIn(a, bucket) == CountIn(b, bucket)
    decreases |a|
  {
    if a == [] {
      assert |multiset(b)| == 0;
    } else {
      var x := a[|a| - 1];
      var k := TakeOut(a, b);
      StatsPermute(a[..|a| - 1], b[..k] + b[k + 1..], bucket);
      StatsAround(b, k, bucket);
    }
  }

  /** The last element of a occurs in b, and taking it out of both leaves permutations. */
  lemma TakeOut(a: seq<nat>, b: seq<nat>) returns (k: nat)
    requires multiset(a) == multiset(b) && a != []
    ensures k < |b| && b[k] == a[|a| - 1] && multiset(a[..|a| - 1]) == multiset(b[..k] + b[k + 1..])
  {
    var x := a[|a| - 1];
    assert x in multiset(a);
    k :| 0 <= k < |b| && b[k] == x;
    RemoveAt(a, |a| - 1);
    assert a[..|a| - 1] + a[|a|..] == a[..|a| - 1];
    RemoveAt(b, k);
  }

  lemma StatsAround(b: seq<nat>, k: nat, bucket: nat)
    requires k < |b|
    ensures var rest := b[..k] + b[k + 1..];
      && Sum(b) == Sum(rest) + b[k]
      && Least(b) == Min(Least(rest), b[k])
      && Greatest(b) == Max(Greatest(rest), b[k])
      && CountIn(b, bucket) == CountIn(rest, bucket) + (if BucketOf(b[k]) == bucket then 1 else 0)
  {
    var x := [b[k]];
    assert b == b[..k] + (x + b[k + 1..]);
    assert x[..0] == [];
    StatsConcat(b[..k], x + b[k + 1..], bucket);
    StatsConcat(x, b[k + 1..], bucket);
    StatsConcat(b[..k], b[k + 1..], bucket);
    LeastIsSmall(b[k + 1..]);
    LeastIsSmall(b[..k]);
  }

  /** The order in which samples were added does not matter. */
  lemma SummaryIgnoresOrder(a: seq<nat>, b: seq<nat>)
    requires multiset(a) == multiset(b)
    ensures Summarize(a) == Summarize(b)
  {
    StatsPermute(a, b, 0);
    assert |multiset(a)| == |a| && |multiset(b)| == |b|;
    forall i: nat | i < BUCKETS ensures Summarize(a).buckets[i] == Summarize(b).buckets[i] {
      StatsPermute(a, b, i);
    }
  }

  /** A way of building a histogram: from the constructor, by adds and merges. */
  datatype History = Fresh | Added(before: History, v: nat) | Merged(left: History, right: History)

  function Samples(h: History): seq<nat> {
    match h
    case Fresh => []
    case Added(before, v) => Samples(before) + [v]
    case Merged(left, right) => Samples(left) + Samples(right)
  }

  function Build(h: History): (s: Summary)
    ensures |s.buckets| == BUCKETS
  {
    match h
    case Fresh => Summary(U64_MAX, 0, 0, 0, seq(BUCKETS, _ => 0))
    case Added(before, v) => Add(Build(before), v)
    case Merged(left, right) => Merge(Build(left), Build(right))
  }

  lemma {:induction false} BuildSummarizes(h: History)
    ensures Build(h) == Summarize(Samples(h))
  {
    match h
    case Fresh =>
    case Added(before, v) =>
      BuildSummarizes(before);
      AddSummarizes(Samples(before), v);
    case Merged(left, right) =>
      BuildSummarizes(left);
      BuildSummarizes(right);
      MergeSummarizes(Samples(left), Samples(right));
  }

  /** However a histogram was built from adds and merges, it depends only on the multiset of its samples. */
  lemma HistogramIsMultisetSummary(g: History, h: History)
    requires multiset(Samples(g)) == multiset(Samples(h))
    ensures Build(g) == Build(h)
  {
    BuildSummarizes(g);
    BuildSummarizes(h);
    SummaryIgnoresOrder(Samples(g), Samples(h));
  }

  lemma MergeCommutes(g: History, h: History)
    ensures Build(Merged(g, h)) == Build(Merged(h, g))
  {
    hide Build;
    ConcatCommutes(Samples(g), Samples(h));
    HistogramIsMultisetSummary(Merged(g, h), Merged(h, g));
  }

  lemma ConcatCommutes(a: seq<nat>, b: seq<nat>)
    ensures multiset(a + b) == multiset(b + a)
  {}

  lemma MergeAssociates(f: History, g: History, h: History)
    ensures Build(Merged(f, Merged(g, h))) == Build(Merged(Merged(f, g), h))
  {
    hide Build;
    assert Samples(Merged(g, h)) == Samples(g) + Samples(h) && Samples(Merged(f, g)) == Samples(f) + Samples(g);
    assert Samples(f) + (Samples(g) + Samples(h)) == Samples(f) + Samples(g) + Samples(h);
    HistogramIsMultisetSummary(Merged(f, Merged(g, h)), Merged(Merged(f, g), h));
  }

  lemma MergeHasUnit(h: History)
    ensures Build(Merged(h, Fresh)) == Build(h) == Build(Merged(Fresh, h))
  {
    hide Build;
    assert Samples(h) + [] == Samples(h) == [] + Samples(h);
    HistogramIsMultisetSummary(Merged(h, Fresh), h);
    HistogramIsMultisetSummary(Merged(Fresh, h), h);
  }

  // ----- buckets against totals -----

  /** The sum of buckets[i] * w(i). */
  function Weighted(buckets: seq<nat>, w: nat -> nat): nat {
    if buckets == [] then 0
    else Weighted(buckets[..|buckets| - 1], w) + buckets[|buckets| - 1] * w(|buckets| - 1)
  }

  function One(i: nat): nat { 1 }

  function Lower(i: nat): nat { if i < BUCKETS then Threshold(i) else 0 }

  function Upper(i: nat): nat { if i < BUCKETS then Threshold(i + 1) else 0 }

  /** The bucket counts of `samples` before they are cut to 64 bits. */
  function Counts(samples: seq<nat>, n: nat): (c: seq<nat>)
    ensures |c| == n && forall i :: 0 <= i < n ==> c[i] == CountIn(samples, i)
  {
    seq(n, (i: nat) => CountIn(samples, i))
  }

  lemma {:induction false} OneMore(counts: seq<nat>, b: nat, w: nat -> nat)
    requires b < |counts|
    ensures Weighted(counts[b := counts[b] + 1], w) == Weighted(counts, w) + w(b)
  {
    var n := |counts| - 1;
    var more := counts[b := counts[b] + 1];
    if b < n {
      assert more[..n] == counts[..n][b := counts[b] + 1];
      OneMore(counts[..n], b, w);
    } else {
      assert more[..n] == counts[..n];
      assert (counts[b] + 1) * w(b) == counts[b] * w(b) + w(b);
    }
  }

  lemma {:induction false} NoneWeighs(counts: seq<nat>, w: nat -> nat)
    requires forall i :: 0 <= i < |counts| ==> counts[i] == 0
    ensures Weighted(counts, w) == 0
  {
    if counts != [] {
      NoneWeighs(counts[..|counts| - 1], w);
    }
  }

  function CountWhere(samples: seq<nat>, n: nat): nat {
    if samples == [] then 0
    else CountWhere(samples[..|samples| - 1], n) + (if BucketOf(samples[|samples| - 1]) < n then 1 else 0)
  }

  /** One more sample adds w(its bucket) to the weighted count of the first n buckets, if it falls there. */
  lemma CountsStep(samples: seq<nat>, n: nat, w: nat -> nat)
    requires samples != []
    ensures var b := BucketOf(samples[|samples| - 1]);
      Weighted(Counts(samples, n), w)
      == Weighted(Counts(samples[..|samples| - 1], n), w) + (if b < n then w(b) else 0)
  {
    var b := BucketOf(samples[|samples| - 1]);
    var before := Counts(samples[..|samples| - 1], n);
    if b < n {
      assert Counts(samples, n) == before[b := before[b] + 1];
      OneMore(before, b, w);
    } else {
      assert Counts(samples, n) == before;
    }
  }

  /** Every sample is counted in exactly one bucket. */
  lemma {:induction false} BucketsCountSamples(samples: seq<nat>, n: nat)
    ensures Weighted(Counts(samples, n), One) == CountWhere(samples, n)
    ensures n >= BUCKETS ==> CountWhere(samples, n) == |samples|
  {
    if samples == [] {
      NoneWeighs(Counts(samples, n), One);
    } else {
      BucketsCountSamples(samples[..|samples| - 1], n);
      CountsStep(samples, n, One);
    }
  }

  /** The exact total lies between the bucket counts weighted with lower and with upper thresholds; bucket 0
      holds zeros only, so its count can be taken off the upper bound. */
  lemma {:induction false} TotalBetweenThresholds(samples: seq<nat>)
    requires forall i :: 0 <= i < |samples| ==> samples[i] <= U64_MAX
    ensures Weighted(Counts(samples, BUCKETS), Lower) <= Sum(samples)
    ensures Sum(samples) + CountIn(samples, 0) <= Weighted(Counts(samples, BUCKETS), Upper)
  {
    if samples == [] {
      NoneWeighs(Counts(samples, BUCKETS), Lower);
      NoneWeighs(Counts(samples, BUCKETS), Upper);
    } else {
      TotalBetweenThresholds(samples[..|samples| - 1]);
      CountsStep(samples, BUCKETS, Lower);
      CountsStep(samples, BUCKETS, Upper);
      LastBucketTop();
    }
  }

  lemma LastBucketTop()
    ensures Threshold(BUCKETS) == U64_MAX
  {}

  /** The bucket fields of a histogram of fewer than 2^64 samples are the exact counts. */
  lemma CountsFit(samples: seq<nat>)
    requires |samples| < TWO_TO_THE_64
    ensures Summarize(samples).buckets == Counts(samples, BUCKETS)
  {
    hide Wrap;
    forall b: nat | b < BUCKETS ensures Wrap(CountIn(samples, b)) == CountIn(samples, b) {
      CountAtMost(samples, b);
      WrapSmall(CountIn(samples, b));
    }
  }

  lemma WrapSmall(x: nat)
    requires x < TWO_TO_THE_64
    ensures Wrap(x) == x
  {}

  lemma {:induction false} CountAtMost(samples: seq<nat>, b: nat)
    ensures CountIn(samples, b) <= |samples|
  {
    if samples != [] {
      CountAtMost(samples[..|samples| - 1], b);
    }
  }

  /** The bucket counts add up to count, while count has not wrapped. */
  lemma BucketsAddUpToCount(samples: seq<nat>)
    requires |samples| < TWO_TO_THE_64
    ensures Weighted(Summarize(samples).buckets, One) == Summarize(samples).count == |samples|
  {
    hide Weighted, CountWhere, CountIn, Sum, Least, Greatest;
    CountsFit(samples);
    WrapSmall(|samples|);
    BucketsCountSamples(samples, BUCKETS);
  }

  /** Samples outside bucket 0 are at least 1, so there are at most as many as their total. */
  lemma {:induction false} CountAtMostSum(samples: seq<nat>, b: nat)
    requires 0 < b < BUCKETS
    ensures CountIn(samples, b) <= Sum(samples)
  {
    if samples != [] {
      CountAtMostSum(samples[..|samples| - 1], b);
      if BucketOf(samples[|samples| - 1]) == b {
        ThresholdsMonotone(0, b);
      }
    }
  }

  lemma {:induction false} WeightedFirst(counts: seq<nat>, x: nat, w: nat -> nat)
    requires counts != []
    ensures Weighted(counts[0 := x], w) + counts[0] * w(0) == Weighted(counts, w) + x * w(0)
  {
    var n := |counts| - 1;
    if n > 0 {
      assert counts[0 := x][..n] == counts[..n][0 := x];
      WeightedFirst(counts[..n], x, w);
    } else {
      assert counts[0 := x][..0] == [] && counts[..0] == [];
    }
  }

  /** While the total has not wrapped, only the count of bucket 0 can have. */
  lemma BucketsAreCountsButFirst(samples: seq<nat>)
    requires Sum(samples) < TWO_TO_THE_64
    ensures Summarize(samples).buckets == Counts(samples, BUCKETS)[0 := Wrap(CountIn(samples, 0))]
  {
    hide Wrap, Sum, CountIn, Least, Greatest;
    forall b: nat | 0 < b < BUCKETS ensures Wrap(CountIn(samples, b)) == CountIn(samples, b) {
      CountAtMostSum(samples, b);
      WrapSmall(CountIn(samples, b));
    }
  }

  lemma FirstThresholds()
    ensures Lower(0) == 0 && Upper(0) == 1
  {}

  /** While the total has not wrapped, it lies between the sums of the lower and of the upper thresholds of the
      samples' buckets. */
  lemma BucketsBoundTotal(samples: seq<nat>)
    requires forall i :: 0 <= i < |samples| ==> samples[i] <= U64_MAX
    requires Sum(samples) < TWO_TO_THE_64
    ensures var h := Summarize(samples); Weighted(h.buckets, Lower) <= h.total <= Weighted(h.buckets, Upper)
  {
    hide Weighted, CountIn, Sum, Wrap, Summarize, Counts, Lower, Upper;
    TotalIs(samples);
    BucketsAreCountsButFirst(samples);
    WrapSmall(Sum(samples));
    TotalBetweenThresholds(samples);
    FirstWeighs(Counts(samples, BUCKETS), Wrap(CountIn(samples, 0)));
  }

  lemma FirstWeighs(counts: seq<nat>, x: nat)
    requires counts != []
    ensures Weighted(counts[0 := x], Lower) == Weighted(counts, Lower)
    ensures Weighted(counts[0 := x], Upper) + counts[0] == Weighted(counts, Upper) + x
  {
    hide Weighted, Lower, Upper;
    FirstThresholds();
    WeightedFirst(counts, x, Lower);
    WeightedFirst(counts, x, Upper);
  }

  lemma TotalIs(samples: seq<nat>)
    ensures Summarize(samples).total == Wrap(Sum(samples))
  {}

  function Average(h: Summary): nat {
    if h.count != 0 then h.total / h.count else 0
  }

  lemma {:induction false} SumBetween(samples: seq<nat>)
    ensures |samples| * Least(samples) <= Sum(samples) <= |samples| * Greatest(samples)
  {
    if samples != [] {
      var init, last := samples[..|samples| - 1], samples[|samples| - 1];
      SumBetween(init);
      Grow(|init|, Least(samples), Least(init), last);
      Grow(|init|, Greatest(init), Greatest(samples), last);
    }
  }

  lemma Grow(n: nat, low: nat, high: nat, last: nat)
    requires low <= high
    ensures n * low <= n * high
    ensures (n + 1) * low == n * low + low && (n + 1) * high == n * high + high
  {}

  /** A non-empty histogram whose count and total have not wrapped has min <= average <= max. */
  lemma AverageBetween(samples: seq<nat>)
    requires samples != [] && |samples| < TWO_TO_THE_64 && Sum(samples) < TWO_TO_THE_64
    ensures var h := Summarize(samples); h.min <= Average(h) <= h.max
  {
    hide Sum, Least, Greatest, CountIn;
    SumBetween(samples);
    QuotientBetween(Sum(samples), |samples|, Least(samples), Greatest(samples));
  }

  lemma QuotientBetween(total: nat, n: nat, low: nat, high: nat)
    requires n > 0 && n * low <= total <= n * high
    ensures low <= total / n <= high
  {
    var q := total / n;
    assert n * q <= total < n * (q + 1);
    MulMonotone(n, q + 1, low);
    MulMonotone(n, high + 1, q);
    assert n * (high + 1) == n * high + n;
  }

  lemma MulMonotone(n: nat, a: nat, b: nat)
    ensures a <= b ==> n * a <= n * b
  {}

  /** While count and total have not wrapped, the average is the exact mean of the samples rounded down, and 0 for
      no samples. */
  lemma AverageIsMean(samples: seq<nat>)
    requires |samples| < TWO_TO_THE_64 && Sum(samples) < TWO_TO_THE_64
    ensures var avg := Average(Summarize(samples));
      if samples == [] then avg == 0
      else |samples| * avg <= Sum(samples) < |samples| * (avg + 1)
  {
    hide Sum, Least, Greatest, CountIn;
    WrapSmall(Sum(samples));
    WrapSmall(|samples|);
    if samples != [] {
      QuotientIs(Sum(samples), |samples|);
    }
  }

  lemma QuotientIs(total: nat, n: nat)
    requires n > 0
    ensures n * (total / n) <= total < n * (total / n + 1)
  {
    assert total == n * (total / n) + total % n;
  }

  // ----- the running sum of toString -----

  /** One line of toString: a non-empty bucket and the running sum including it. */
  datatype Line = Line(bucket: nat, count: nat, sum: nat)

  /** The lines for buckets 0 .. n - 1. */
  function Lines(buckets: seq<nat>, n: nat): seq<Line>
    requires n <= |buckets|
  {
    if n == 0 then []
    else if buckets[n - 1] == 0 then Lines(buckets, n - 1)
    else Lines(buckets, n - 1) + [Line(n - 1, buckets[n - 1], Wrap(Weighted(buckets[..n], One)))]
  }

  function CountBelow(samples: seq<nat>, limit: nat): nat {
    if samples == [] then 0
    else CountBelow(samples[..|samples| - 1], limit) + (if samples[|samples| - 1] < limit then 1 else 0)
  }

  lemma {:induction false} BucketsBelow(samples: seq<nat>, b: nat)
    requires b < BUCKETS - 1
    ensures CountWhere(samples, b + 1) == CountBelow(samples, Threshold(b + 1))
  {
    if samples != [] {
      BucketsBelow(samples[..|samples| - 1], b);
      BucketAtMostIff(samples[|samples| - 1], b);
    }
  }

  lemma CountsPrefix(samples: seq<nat>, n: nat)
    requires n <= BUCKETS
    ensures Counts(samples, BUCKETS)[..n] == Counts(samples, n)
  {}

  /** The running sum at bucket b counts exactly the samples below the next threshold, and at the last
      bucket all samples. */
  lemma RunningSumCounts(samples: seq<nat>, b: nat)
    requires b < BUCKETS && |samples| < TWO_TO_THE_64
    ensures Weighted(Summarize(samples).buckets[..b + 1], One)
         == if b == BUCKETS - 1 then |samples| else CountBelow(samples, Threshold(b + 1))
  {
    hide Weighted, CountIn, Sum, Least, Greatest, CountWhere, CountBelow, Summarize, Threshold;
    CountsFit(samples);
    CountsPrefix(samples, b + 1);
    BucketsCountSamples(samples, b + 1);
    if b < BUCKETS - 1 {
      BucketsBelow(samples, b);
    }
  }

  /** A line of toString tells the truth about `samples`: the bucket's count, and how many samples lie below
      the bucket's upper bound. */
  ghost predicate TrueLine(samples: seq<nat>, line: Line) {
    && line.bucket < BUCKETS
    && line.count == CountIn(samples, line.bucket) > 0
    && line.sum == if line.bucket == BUCKETS - 1 then |samples| else CountBelow(samples, Threshold(line.bucket + 1))
  }

  ghost predicate Report(samples: seq<nat>, n: nat, lines: seq<Line>) {
    && (forall k :: 0 <= k < |lines| ==> lines[k].bucket < n && TrueLine(samples, lines[k]))
    && (forall i, j :: 0 <= i < j < |lines| ==> lines[i].bucket < lines[j].bucket)
    && (forall b :: 0 <= b < n && CountIn(samples, b) > 0 ==> exists k :: 0 <= k < |lines| && lines[k].bucket == b)
  }

  lemma ReportOneMore(samples: seq<nat>, n: nat, lines: seq<Line>, line: Line)
    requires Report(samples, n, lines) && line.bucket == n && TrueLine(samples, line)
    ensures Report(samples, n + 1, lines + [line])
  {
    var more := lines + [line];
    forall b | 0 <= b < n + 1 && CountIn(samples, b) > 0 ensures exists k :: 0 <= k < |more| && more[k].bucket == b {
      if b < n {
        var k :| 0 <= k < |lines| && lines[k].bucket == b;
        assert more[k].bucket == b;
      } else {
        assert more[|lines|].bucket == b;
      }
    }
  }

  lemma ReportNoMore(samples: seq<nat>, n: nat, lines: seq<Line>)
    requires Report(samples, n, lines) && CountIn(samples, n) == 0
    ensures Report(samples, n + 1, lines)
  {}

  lemma TrueLineAt(samples: seq<nat>, b: nat)
    requires b < BUCKETS && |samples| < TWO_TO_THE_64
    ensures var buckets := Summarize(samples).buckets;
      && buckets[b] == CountIn(samples, b)
      && (buckets[b] > 0 ==> TrueLine(samples, Line(b, buckets[b], Wrap(Weighted(buckets[..b + 1], One)))))
  {
    hide Weighted, Sum, Least, Greatest;
    CountsFit(samples);
    RunningSumCounts(samples, b);
    CountBelowAtMost(samples, if b < BUCKETS - 1 then Threshold(b + 1) else 0);
  }

  lemma {:induction false} CountBelowAtMost(samples: seq<nat>, limit: nat)
    ensures CountBelow(samples, limit) <= |samples|
  {
    if samples != [] {
      CountBelowAtMost(samples[..|samples| - 1], limit);
    }
  }

  /** What toString reports: one true line for each non-empty bucket, in order. */
  lemma {:induction false} LinesReport(samples: seq<nat>, n: nat)
    requires n <= BUCKETS && |samples| < TWO_TO_THE_64
    ensures Report(samples, n, Lines(Summarize(samples).buckets, n))
  {
    if n > 0 {
      hide TrueLine, Weighted, CountIn, Summarize, Report;
      var buckets := Summarize(samples).buckets;
      LinesReport(samples, n - 1);
      TrueLineAt(samples, n - 1);
      var line := Line(n - 1, buckets[n - 1], Wrap(Weighted(buckets[..n], One)));
      if buckets[n - 1] > 0 {
        ReportOneMore(samples, n - 1, Lines(buckets, n - 1), line);
      } else {
        ReportNoMore(samples, n - 1, Lines(buckets, n - 1));
      }
    }
  }

  // ----- clear() -----

  /** What clear() leaves: unlike the constructor it sets min_ to 0. */
  const CLEARED := Summary(0, 0, 0, 0, seq(BUCKETS, _ => 0))

  function AddAll(h: Summary, samples: seq<nat>): (r: Summary)
    requires |h.buckets| == BUCKETS
    ensures |r.buckets| == BUCKETS
  {
    if samples == [] then h else Add(AddAll(h, samples[..|samples| - 1]), samples[|samples| - 1])
  }

  lemma EmptyButForMin()
    ensures Summarize([]).(min := 0) == CLEARED
  {
    assert Summarize([]).buckets == CLEARED.buckets;
  }

  lemma AddAfterMin(h: Summary, v: nat)
    requires |h.buckets| == BUCKETS
    ensures Add(h.(min := 0), v) == Add(h, v).(min := 0)
  {}

  lemma {:induction false} ClearedKeepsMinZero(samples: seq<nat>)
    ensures AddAll(CLEARED, samples) == Summarize(samples).(min := 0)
  {
    hide Add, Summarize;
    if samples == [] {
      EmptyButForMin();
    } else {
      var init, last := samples[..|samples| - 1], samples[|samples| - 1];
      ClearedKeepsMinZero(init);
      SummaryHasBuckets(init);
      AddAfterMin(Summarize(init), last);
      AddSummarizes(init, last);
      assert init + [last] == samples;
    }
  }

  lemma SummaryHasBuckets(samples: seq<nat>)
    ensures |Summarize(samples).buckets| == BUCKETS
  {}

  lemma {:induction false} LeastIsZeroIff(samples: seq<nat>)
    ensures Least(samples) == 0 <==> 0 in samples
  {
    if samples != [] {
      LeastIsZeroIff(samples[..|samples| - 1]);
      assert samples == samples[..|samples| - 1] + [samples[|samples| - 1]];
    }
  }

  /** A histogram that was cleared and then given samples is right about them exactly when 0 is among them:
      otherwise min() still reports 0. */
  lemma ClearedIsRightIff(samples: seq<nat>)
    ensures AddAll(CLEARED, samples) == Summarize(samples) <==> 0 in samples
  {
    ClearedKeepsMinZero(samples);
    LeastIsZeroIff(samples);
  }
}
