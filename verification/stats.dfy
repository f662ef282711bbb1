/** The count / mean / min / max aggregation that pandas' `agg` computes over
    one group of AQI values. Values are exact reals: the mean is the exact
    ratio of the sum to the count. */
module Stats {

  function Sum(xs: seq<real>): (r: real)
  {
    if xs == [] then 0.0 else xs[0] + Sum(xs[1..])
  }

  /** The smallest value of a non-empty group: it occurs in the group and no
      value is below it. */
  function Minimum(xs: seq<real>): (m: real)
    requires |xs| > 0
    ensures m in xs
    ensures forall i :: 0 <= i < |xs| ==> m <= xs[i]
  {
    if |xs| == 1 then xs[0]
    else
      var rest := Minimum(xs[1..]);
      if xs[0] <= rest then xs[0] else rest
  }

  /** The largest value of a non-empty group: it occurs in the group and no
      value is above it. */
  function Maximum(xs: seq<real>): (m: real)
    requires |xs| > 0
    ensures m in xs
    ensures forall i :: 0 <= i < |xs| ==> xs[i] <= m
  {
    if |xs| == 1 then xs[0]
    else
      var rest := Maximum(xs[1..]);
      if xs[0] >= rest then xs[0] else rest
  }

  /** The exact mean of a non-empty group: times the count, it gives back
      the sum. */
  function Mean(xs: seq<real>): (r: real)
    requires |xs| > 0
    ensures r * (|xs| as real) == Sum(xs)
  {
    Sum(xs) / |xs| as real
  }

  /** A sum of n values none of which is below lo is at least n * lo. */
  lemma {:induction false} SumAtLeast(xs: seq<real>, lo: real)
    requires forall i :: 0 <= i < |xs| ==> lo <= xs[i]
    ensures |xs| as real * lo <= Sum(xs)
  {
    if xs != [] {
      SumAtLeast(xs[1..], lo);
      assert |xs| as real * lo == lo + (|xs| - 1) as real * lo;
    }
  }

  /** A sum of n values none of which is above hi is at most n * hi. */
  lemma {:induction false} SumAtMost(xs: seq<real>, hi: real)
    requires forall i :: 0 <= i < |xs| ==> xs[i] <= hi
    ensures Sum(xs) <= |xs| as real * hi
  {
    if xs != [] {
      SumAtMost(xs[1..], hi);
      assert |xs| as real * hi == hi + (|xs| - 1) as real * hi;
    }
  }

  /** Dividing by a positive count keeps a bound: from n * lo <= s <= n * hi
      follows lo <= s / n <= hi. */
  lemma DivideBounds(s: real, n: real, lo: real, hi: real)
    requires n > 0.0 && n * lo <= s <= n * hi
    ensures lo <= s / n <= hi
  {
    var q := s / n;
    assert q * n == s;
    assert (q - lo) * n == s - n * lo;
    assert (hi - q) * n == n * hi - s;
  }

  /** The mean of values that all lie in [lo, hi] lies in [lo, hi]. */
  lemma MeanWithin(xs: seq<real>, lo: real, hi: real)
    requires |xs| > 0
    requires forall i :: 0 <= i < |xs| ==> lo <= xs[i] <= hi
    ensures lo <= Mean(xs) <= hi
  {
    SumAtLeast(xs, lo);
    SumAtMost(xs, hi);
    DivideBounds(Sum(xs), |xs| as real, lo, hi);
  }

  /** The mean of a non-empty group lies between its minimum and maximum. */
  lemma MeanBetween(xs: seq<real>)
    requires |xs| > 0
    ensures Minimum(xs) <= Mean(xs) <= Maximum(xs)
  {
    MeanWithin(xs, Minimum(xs), Maximum(xs));
  }

  /** One row of an `agg(['count', 'mean', 'min', 'max'])` table. */
  datatype AqiSummary = AqiSummary(count: nat, mean: real, min: real, max: real)

  /** The summary of a non-empty group: the count is the group size, the mean
      is the exact mean, min and max are attained and bound every
      value, and the mean lies between them. */
  function Summarize(xs: seq<real>): (s: AqiSummary)
    requires |xs| > 0
    ensures s.count == |xs|
    ensures s.mean == Mean(xs)
    ensures s.min in xs && s.max in xs
    ensures forall i :: 0 <= i < |xs| ==> s.min <= xs[i] <= s.max
    ensures s.min <= s.mean <= s.max
  {
    var mean := Mean(xs);
    assert Minimum(xs) <= mean <= Maximum(xs) by { MeanBetween(xs); }
    AqiSummary(|xs|, mean, Minimum(xs), Maximum(xs))
  }
}
