/** The class Histogram, its fields updated in place. */
module Histograms {
  import opened Words
  import opened Thresholds
  import M = HistogramModel

  class Histogram {
    var min: nat
    var max: nat
    var total: nat
    var count: nat
    const buckets: array<nat>

    ghost predicate Valid() {
      buckets.Length == BUCKETS
    }

    ghost function View(): M.Summary
      reads this, buckets
    {
      M.Summary(min, max, total, count, buckets[..])
    }

    constructor ()
      ensures Valid() && View() == M.Build(M.Fresh)
      ensures fresh(buckets)
    {
      min, max, total, count := U64_MAX, 0, 0, 0;
      buckets := new nat[BUCKETS](_ => 0);
    }

    method Clear()
      requires Valid()
      modifies this, buckets
      ensures View() == M.CLEARED
    {
      min, max, total, count := 0, 0, 0, 0;
      for i := 0 to BUCKETS
        invariant min == max == total == count == 0
        invariant forall j :: 0 <= j < i ==> buckets[j] == 0
      {
        buckets[i] := 0;
      }
    }

    /** Returns the bucket of v. */
    method Add(v: nat) returns (mid: nat)
      requires Valid() && v <= U64_MAX
      modifies this, buckets
      ensures View() == M.Add(old(View()), v)
      ensures mid == BucketOf(v)
    {
      if v > max {
        max := v;
      }
      if v < min {
        min := v;
      }
      total := (total + v) % TWO_TO_THE_64;
      count := (count + 1) % TWO_TO_THE_64;
      mid := Search(v);
      buckets[mid] := (buckets[mid] + 1) % TWO_TO_THE_64;
    }

    /** `other` may be this histogram itself. */
    method Merge(other: Histogram)
      requires Valid() && other.Valid()
      modifies this, buckets
      ensures View() == M.Merge(old(View()), old(other.View()))
    {
      if min > other.min {
        min := other.min;
      }
      if max < other.max {
        max := other.max;
      }
      total := (total + other.total) % TWO_TO_THE_64;
      count := (count + other.count) % TWO_TO_THE_64;
      for i := 0 to BUCKETS
        invariant min == Min(old(min), old(other.min)) && max == Max(old(max), old(other.max))
        invariant total == M.Wrap(old(total) + old(other.total)) && count == M.Wrap(old(count) + old(other.count))
        invariant forall j :: 0 <= j < i ==> buckets[j] == M.Wrap(old(buckets[j]) + old(other.buckets[j]))
        invariant forall j :: i <= j < BUCKETS ==>
                    buckets[j] == old(buckets[j]) && other.buckets[j] == old(other.buckets[j])
      {
        buckets[i] := (buckets[i] + other.buckets[i]) % TWO_TO_THE_64;
      }
    }

    method Average() returns (avg: nat)
      ensures avg == M.Average(View())
    {
      avg := if count != 0 then total / count else 0;
    }

    /** The integer part of toString: the non-empty buckets with their running sums. */
    method ToLines() returns (lines: seq<M.Line>)
      requires Valid()
      ensures lines == if count == 0 then [] else M.Lines(buckets[..], BUCKETS)
    {
      lines := [];
      if count == 0 {
        return;
      }
      var sum := 0;
      for b := 0 to BUCKETS
        invariant lines == M.Lines(buckets[..], b)
        invariant sum == M.Wrap(M.Weighted(buckets[..b], M.One))
      {
        SumStep(buckets[..], b);
        if buckets[b] == 0 {
          continue;
        }
        sum := (sum + buckets[b]) % TWO_TO_THE_64;
        lines := lines + [M.Line(b, buckets[b], sum)];
      }
    }

    static lemma SumStep(buckets: seq<nat>, b: nat)
      requires b < |buckets|
      ensures M.Wrap(M.Weighted(buckets[..b + 1], M.One))
           == M.Wrap(M.Wrap(M.Weighted(buckets[..b], M.One)) + buckets[b])
    {
      assert buckets[..b + 1][..b] == buckets[..b];
      M.WrapAdds(M.Weighted(buckets[..b], M.One), buckets[b]);
    }
  }
}
