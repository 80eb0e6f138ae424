/** Model of the histogram binning behind the random-distribution generators: the
    bins built for a range, the bin a number falls into, and the loops that count
    samples into bins. Random engines are replaced by the sequence of samples they
    would have produced.
 */
module Distributions {

  import opened Arithmetic

  /** Values of `std::uint32_t` lie below this bound. */
  const U32Limit: nat := 0x1_0000_0000

  /** `DistributionPair`: a bin covering `[minValue, maxValue]` and its count. */
  datatype Bin = Bin(minValue: nat, maxValue: nat, count: nat)

  /** 32-bit unsigned subtraction, as `std::uint32_t` computes it. */
  function Sub32(a: nat, b: nat): (r: nat)
    requires a < U32Limit && b < U32Limit
    ensures r < U32Limit
    ensures b <= a ==> r == a - b
    ensures a < b ==> r == a - b + U32Limit
  {
    (a - b) % U32Limit
  }

  /** What `buildHistogramBins` demands of its arguments: a non-empty range of 32-bit
      values, between 1 and 255 bins (a zero bin count divides by zero) and a last bin
      whose upper end still fits in 32 bits. */
  predicate BinsOk(min: nat, max: nat, numberBins: nat)
  {
    min <= max < U32Limit && 1 <= numberBins < 256 &&
    min + numberBins * ((max - min) / numberBins + 1) - 1 < U32Limit
  }

  /** The width, less one, of every bin. */
  function Increment(min: nat, max: nat, numberBins: nat): (inc: nat)
    requires BinsOk(min, max, numberBins)
    ensures numberBins * inc <= max - min < numberBins * (inc + 1)
  {
    (max - min) / numberBins
  }

  /** The bins `buildHistogramBins` produces, in closed form: bin i is
      `[min + i * (inc + 1), min + i * (inc + 1) + inc]` and holds no samples. */
  function HistogramBins(min: nat, max: nat, numberBins: nat): (bins: seq<Bin>)
    requires BinsOk(min, max, numberBins)
    ensures |bins| == numberBins
  {
    var inc := Increment(min, max, numberBins);
    seq(numberBins, i requires 0 <= i < numberBins => Bin(min + i * (inc + 1), min + i * (inc + 1) + inc, 0))
  }

  /** The bins start at `min`, each is `inc + 1` values wide, each starts one past the
      end of the one before, and all counts are zero. */
  lemma HistogramBinsShape(min: nat, max: nat, numberBins: nat)
    requires BinsOk(min, max, numberBins)
    ensures HistogramBins(min, max, numberBins)[0].minValue == min
    ensures forall i :: 0 <= i < numberBins ==>
      HistogramBins(min, max, numberBins)[i].maxValue ==
        HistogramBins(min, max, numberBins)[i].minValue + Increment(min, max, numberBins) &&
      HistogramBins(min, max, numberBins)[i].count == 0
    ensures forall i :: 0 <= i < numberBins - 1 ==>
      HistogramBins(min, max, numberBins)[i + 1].minValue == HistogramBins(min, max, numberBins)[i].maxValue + 1
  {
    var inc := Increment(min, max, numberBins);
    forall i | 0 <= i < numberBins - 1
      ensures HistogramBins(min, max, numberBins)[i + 1].minValue == HistogramBins(min, max, numberBins)[i].maxValue + 1
    {
      assert (i + 1) * (inc + 1) == i * (inc + 1) + inc + 1;
    }
  }

  /** The last bin ends at or after `max` and less than `numberBins` values after it,
      so the bins cover the whole range and little more. */
  lemma LastBinCoversMax(min: nat, max: nat, numberBins: nat)
    requires BinsOk(min, max, numberBins)
    ensures max <= HistogramBins(min, max, numberBins)[numberBins - 1].maxValue < max + numberBins
  {
    var inc := Increment(min, max, numberBins);
    assert (numberBins - 1) * (inc + 1) + inc == numberBins * (inc + 1) - 1;
  }

  /** `buildHistogramBins`: appends bins while stepping a running `[currMin, currMax]`. */
  method BuildHistogramBins(min: nat, max: nat, numberBins: nat) returns (histogram: seq<Bin>)
    requires BinsOk(min, max, numberBins)
    ensures histogram == HistogramBins(min, max, numberBins)
  {
    histogram := [];
    var increment := (max - min) / numberBins;
    var currMin := min;
    var currMax := currMin + increment;
    var i := 0;
    while i < numberBins
      invariant 0 <= i <= numberBins
      invariant currMin == min + i * (increment + 1) && currMax == currMin + increment
      invariant histogram == HistogramBins(min, max, numberBins)[..i]
    {
      histogram := histogram + [Bin(currMin, currMax, 0)];
      currMin := currMax + 1;
      currMax := currMin + increment;
      i := i + 1;
      assert currMin == min + i * (increment + 1);
    }
  }

  /** The divisor of `getHistogramIndex`: the increment recomputed from the first and
      last bin, plus one, in 32-bit unsigned arithmetic. The sum wraps to 0 when that
      increment is 2^32 - 1, and the source then divides by zero. */
  function BinDivisor(histogram: seq<Bin>): (w: nat)
    requires Indexable(histogram)
    ensures w < U32Limit
    ensures w == 0 <==> Sub32(histogram[|histogram| - 1].maxValue, histogram[0].minValue) / |histogram| == U32Limit - 1
  {
    var increment := Sub32(histogram[|histogram| - 1].maxValue, histogram[0].minValue) / |histogram|;
    (increment + 1) % U32Limit
  }

  /** `getHistogramIndex`: divides the number's offset from the first bin by the bin
      width, all in 32-bit unsigned arithmetic. */
  function GetHistogramIndex(histogram: seq<Bin>, number: nat): (index: nat)
    requires Indexable(histogram) && BinDivisor(histogram) != 0
    requires number < U32Limit
    ensures index < U32Limit
  {
    Sub32(number, histogram[0].minValue) / BinDivisor(histogram)
  }

  /** One bin over the whole 32-bit range is a histogram `buildHistogramBins` accepts,
      yet the divisor `getHistogramIndex` computes for it is 0. */
  lemma FullRangeOneBin()
    ensures BinsOk(0, U32Limit - 1, 1)
    ensures BinDivisor(HistogramBins(0, U32Limit - 1, 1)) == 0
  {
    var h := HistogramBins(0, U32Limit - 1, 1);
    assert h[0] == Bin(0, U32Limit - 1, 0);
  }

  /** Integer division by d recovers the quotient of `d * q + r` for `0 <= r < d`. */
  lemma DivideExact(d: nat, q: nat, r: nat)
    requires 0 <= r < d
    ensures (d * q + r) / d == q
  {
    var a := d * q + r;
    var q' := a / d;
    assert a == d * q' + a % d;
    if q' < q {
      MulMonotone(d, q' + 1, q);
    } else if q' > q {
      MulMonotone(d, q + 1, q');
    }
  }

  /** The increment `getHistogramIndex` recomputes from bins built by
      `buildHistogramBins` is the one they were built with. */
  lemma RecomputedIncrement(min: nat, max: nat, numberBins: nat)
    requires BinsOk(min, max, numberBins)
    ensures var h := HistogramBins(min, max, numberBins);
      Sub32(h[numberBins - 1].maxValue, h[0].minValue) / numberBins == Increment(min, max, numberBins)
  {
    var inc := Increment(min, max, numberBins);
    var h := HistogramBins(min, max, numberBins);
    assert h[numberBins - 1].maxValue - h[0].minValue == numberBins * inc + (numberBins - 1);
    DivideExact(numberBins, inc, numberBins - 1);
  }

  /** The quotient of d by w is below n when d is, and it places d inside one of the
      width-w blocks. */
  lemma QuotientBounds(d: nat, w: nat, n: nat)
    requires 1 <= w && d < n * w
    ensures d / w < n && (d / w) * w <= d < (d / w) * w + w
  {
    var q := d / w;
    assert d == w * q + d % w;
    if q >= n {
      MulMonotone(w, n, q);
    }
  }

  /** Unless the increment is 2^32 - 1, the divisor is the bin width, and a number
      between `min` and the end of the last bin gets an index below `numberBins` and
      lies inside the bin at that index. */
  lemma IndexInBin(min: nat, max: nat, numberBins: nat, number: nat)
    requires BinsOk(min, max, numberBins) && Increment(min, max, numberBins) + 1 < U32Limit
    requires min <= number <= HistogramBins(min, max, numberBins)[numberBins - 1].maxValue
    ensures BinDivisor(HistogramBins(min, max, numberBins)) == Increment(min, max, numberBins) + 1
    ensures var h := HistogramBins(min, max, numberBins);
      var i := GetHistogramIndex(h, number);
      i < numberBins && h[i].minValue <= number <= h[i].maxValue
  {
    var inc := Increment(min, max, numberBins);
    var h := HistogramBins(min, max, numberBins);
    RecomputedIncrement(min, max, numberBins);
    var d := number - min;
    assert (numberBins - 1) * (inc + 1) + inc + 1 == numberBins * (inc + 1);
    QuotientBounds(d, inc + 1, numberBins);
    var i := GetHistogramIndex(h, number);
    assert i == d / (inc + 1);
  }

  /** The three generators differ only in how they turn a sample into a bin index. */
  datatype Sampler =
    | Uniform
      /** Normal samples below `min` go to the first bin and above `max` to the last. */
    | Normal(min: nat, max: nat)
      /** Poisson samples above `max` go to the last bin. */
    | Poisson(max: nat)

  /** A histogram whose first and last bin bounds are 32-bit values. */
  predicate Indexable(histogram: seq<Bin>)
  {
    |histogram| >= 1 && histogram[0].minValue < U32Limit && histogram[|histogram| - 1].maxValue < U32Limit
  }

  /** Whether the generator's loop hands the sample to `getHistogramIndex` rather
      than clamping it to an end bin. */
  predicate UsesIndex(sampler: Sampler, number: nat)
  {
    match sampler
    case Uniform => true
    case Normal(min, max) => min <= number <= max
    case Poisson(max) => number <= max
  }

  /** A 32-bit sample for which the loop does not divide by zero. */
  predicate Routable(sampler: Sampler, histogram: seq<Bin>, number: nat)
    requires Indexable(histogram)
  {
    number < U32Limit && (UsesIndex(sampler, number) ==> BinDivisor(histogram) != 0)
  }

  /** The bin index the generator's loop picks for one sample. A clamped sample
      always lands in one of the two end bins. */
  function BinIndex(sampler: Sampler, histogram: seq<Bin>, number: nat): (index: nat)
    requires Indexable(histogram) && Routable(sampler, histogram, number)
    ensures !UsesIndex(sampler, number) ==> index == 0 || index == |histogram| - 1
  {
    match sampler
    case Uniform => GetHistogramIndex(histogram, number)
    case Normal(min, max) =>
      if number < min then 0
      else if number > max then |histogram| - 1
      else GetHistogramIndex(histogram, number)
    case Poisson(max) =>
      if number > max then |histogram| - 1
      else GetHistogramIndex(histogram, number)
  }

  /** Same bins, counts aside. */
  predicate SameBounds(h1: seq<Bin>, h2: seq<Bin>)
  {
    |h1| == |h2| && forall i :: 0 <= i < |h1| ==> h1[i].minValue == h2[i].minValue && h1[i].maxValue == h2[i].maxValue
  }

  /** Every sample is routable and its bin index lies inside the histogram. */
  predicate SamplesFit(sampler: Sampler, histogram: seq<Bin>, samples: seq<nat>)
    requires Indexable(histogram)
  {
    forall k :: 0 <= k < |samples| ==>
      Routable(sampler, histogram, samples[k]) && BinIndex(sampler, histogram, samples[k]) < |histogram|
  }

  /** The number of samples sent to bin `i`. */
  function Hits(sampler: Sampler, histogram: seq<Bin>, samples: seq<nat>, i: nat): (n: nat)
    requires Indexable(histogram)
    requires forall k :: 0 <= k < |samples| ==> Routable(sampler, histogram, samples[k])
    ensures n <= |samples|
  {
    if |samples| == 0 then 0
    else
      var last := samples[|samples| - 1];
      Hits(sampler, histogram, samples[..|samples| - 1], i) + (if BinIndex(sampler, histogram, last) == i then 1 else 0)
  }

  /** The sum of all bin counts. */
  function Total(histogram: seq<Bin>): nat
  {
    if |histogram| == 0 then 0 else Total(histogram[..|histogram| - 1]) + histogram[|histogram| - 1].count
  }

  /** Changing one bin's count changes the total by the same amount. */
  lemma {:induction false} TotalUpdate(histogram: seq<Bin>, k: nat, b: Bin)
    requires k < |histogram|
    ensures Total(histogram[k := b]) + histogram[k].count == Total(histogram) + b.count
  {
    var n := |histogram|;
    if k < n - 1 {
      assert histogram[k := b][..n - 1] == histogram[..n - 1][k := b];
      TotalUpdate(histogram[..n - 1], k, b);
    } else {
      assert histogram[k := b][..n - 1] == histogram[..n - 1];
    }
  }

  /** Counts do not take part in choosing a bin. */
  lemma BinIndexIgnoresCounts(sampler: Sampler, h1: seq<Bin>, h2: seq<Bin>, number: nat)
    requires Indexable(h1) && SameBounds(h1, h2) && Routable(sampler, h1, number)
    ensures Indexable(h2) && Routable(sampler, h2, number)
    ensures BinIndex(sampler, h1, number) == BinIndex(sampler, h2, number)
  {
  }

  /** Every bin of `h` has gained, over `histogram`, exactly the given samples sent to it. */
  predicate Tallied(sampler: Sampler, histogram: seq<Bin>, samples: seq<nat>, h: seq<Bin>)
    requires Indexable(histogram)
    requires forall k :: 0 <= k < |samples| ==> Routable(sampler, histogram, samples[k])
  {
    SameBounds(histogram, h) &&
    forall i :: 0 <= i < |h| ==> h[i].count == histogram[i].count + Hits(sampler, histogram, samples, i)
  }

  /** Counting one more sample into the bin it selects keeps the tally exact. */
  lemma TallyStep(sampler: Sampler, histogram: seq<Bin>, samples: seq<nat>, k: nat, h: seq<Bin>)
    requires Indexable(histogram) && SamplesFit(sampler, histogram, samples) && k < |samples|
    requires Tallied(sampler, histogram, samples[..k], h)
    ensures var index := BinIndex(sampler, histogram, samples[k]);
      Tallied(sampler, histogram, samples[..k + 1], h[index := h[index].(count := h[index].count + 1)])
  {
    assert samples[..k + 1][..k] == samples[..k];
  }

  /** The counting loop of the `generate*` functions: each sample adds one to the
      count of the bin it selects. Afterwards every bin has gained exactly the samples
      sent to it, and the total has grown by the number of samples. */
  method Populate(sampler: Sampler, histogram: seq<Bin>, samples: seq<nat>) returns (h: seq<Bin>)
    requires Indexable(histogram) && SamplesFit(sampler, histogram, samples)
    ensures SameBounds(histogram, h)
    ensures forall i :: 0 <= i < |h| ==> h[i].count == histogram[i].count + Hits(sampler, histogram, samples, i)
    ensures Total(h) == Total(histogram) + |samples|
  {
    h := histogram;
    var k := 0;
    while k < |samples|
      invariant 0 <= k <= |samples|
      invariant Tallied(sampler, histogram, samples[..k], h)
      invariant Total(h) == Total(histogram) + k
    {
      BinIndexIgnoresCounts(sampler, histogram, h, samples[k]);
      var index := BinIndex(sampler, h, samples[k]);
      TotalUpdate(h, index, h[index].(count := h[index].count + 1));
      TallyStep(sampler, histogram, samples, k, h);
      h := h[index := h[index].(count := h[index].count + 1)];
      k := k + 1;
    }
    assert samples[..k] == samples;
  }

  /** `generateUniformDistribution`: every sample lies in `[min, max]`. Drawing a
      sample for one bin over the whole 32-bit range divides by zero. */
  method GenerateUniformDistribution(samples: seq<nat>, min: nat, max: nat, numberBins: nat) returns (histogram: seq<Bin>)
    requires BinsOk(min, max, numberBins)
    requires forall k :: 0 <= k < |samples| ==> min <= samples[k] <= max
    requires |samples| > 0 ==> Increment(min, max, numberBins) + 1 < U32Limit
    ensures SamplesFit(Uniform, HistogramBins(min, max, numberBins), samples)
    ensures SameBounds(histogram, HistogramBins(min, max, numberBins))
    ensures forall i :: 0 <= i < numberBins ==>
      histogram[i].count == Hits(Uniform, HistogramBins(min, max, numberBins), samples, i)
    ensures Total(histogram) == |samples|
  {
    var bins := BuildHistogramBins(min, max, numberBins);
    HistogramBinsShape(min, max, numberBins);
    LastBinCoversMax(min, max, numberBins);
    forall k | 0 <= k < |samples|
      ensures Routable(Uniform, bins, samples[k]) && BinIndex(Uniform, bins, samples[k]) < |bins|
    {
      IndexInBin(min, max, numberBins, samples[k]);
    }
    ZeroTotal(bins);
    histogram := Populate(Uniform, bins, samples);
  }

  /** `generateNormalDistribution`: samples outside `[min, max]` are clamped to the
      first or last bin. Over the whole 32-bit range in one bin every sample is inside
      `[min, max]`, and dividing it by the bin width divides by zero. */
  method GenerateNormalDistribution(samples: seq<nat>, min: nat, max: nat, numberBins: nat) returns (histogram: seq<Bin>)
    requires BinsOk(min, max, numberBins)
    requires forall k :: 0 <= k < |samples| ==> samples[k] < U32Limit
    requires |samples| > 0 ==> Increment(min, max, numberBins) + 1 < U32Limit
    ensures SamplesFit(Normal(min, max), HistogramBins(min, max, numberBins), samples)
    ensures SameBounds(histogram, HistogramBins(min, max, numberBins))
    ensures forall i :: 0 <= i < numberBins ==>
      histogram[i].count == Hits(Normal(min, max), HistogramBins(min, max, numberBins), samples, i)
    ensures Total(histogram) == |samples|
  {
    var bins := BuildHistogramBins(min, max, numberBins);
    HistogramBinsShape(min, max, numberBins);
    LastBinCoversMax(min, max, numberBins);
    forall k | 0 <= k < |samples|
      ensures Routable(Normal(min, max), bins, samples[k]) && BinIndex(Normal(min, max), bins, samples[k]) < |bins|
    {
      if min <= samples[k] <= max {
        IndexInBin(min, max, numberBins, samples[k]);
      }
    }
    ZeroTotal(bins);
    histogram := Populate(Normal(min, max), bins, samples);
  }

  /** `generatePoissonDistribution`: one bin per value `0 .. numberBins - 1`; larger
      samples go to the last bin. */
  method GeneratePoissonDistribution(samples: seq<nat>, numberBins: nat) returns (histogram: seq<Bin>)
    requires 1 <= numberBins < 256
    requires forall k :: 0 <= k < |samples| ==> samples[k] < U32Limit
    ensures SamplesFit(Poisson(numberBins - 1), HistogramBins(0, numberBins - 1, numberBins), samples)
    ensures SameBounds(histogram, HistogramBins(0, numberBins - 1, numberBins))
    ensures forall i :: 0 <= i < numberBins ==>
      histogram[i].count == Hits(Poisson(numberBins - 1), HistogramBins(0, numberBins - 1, numberBins), samples, i)
    ensures Total(histogram) == |samples|
  {
    var max := numberBins - 1;
    assert Increment(0, max, numberBins) == 0;
    var bins := BuildHistogramBins(0, max, numberBins);
    HistogramBinsShape(0, max, numberBins);
    LastBinCoversMax(0, max, numberBins);
    forall k | 0 <= k < |samples|
      ensures Routable(Poisson(max), bins, samples[k]) && BinIndex(Poisson(max), bins, samples[k]) < |bins|
    {
      if samples[k] <= max {
        IndexInBin(0, max, numberBins, samples[k]);
      }
    }
    ZeroTotal(bins);
    histogram := Populate(Poisson(max), bins, samples);
  }

  /** Fresh bins hold no samples. */
  lemma {:induction false} ZeroTotal(histogram: seq<Bin>)
    requires forall i :: 0 <= i < |histogram| ==> histogram[i].count == 0
    ensures Total(histogram) == 0
  {
    if |histogram| > 0 {
      ZeroTotal(histogram[..|histogram| - 1]);
    }
  }

  /** 0 .. 79 in 40 bins gives the two-value bins `[2i, 2i + 1]`. */
  lemma UniformTestBins()
    ensures BinsOk(0, 79, 40)
    ensures forall i :: 0 <= i < 40 ==> HistogramBins(0, 79, 40)[i] == Bin(2 * i, 2 * i + 1, 0)
  {
    assert Increment(0, 79, 40) == 1;
  }

  /** 30 .. 69 in 40 bins gives the single-value bins `[30 + i, 30 + i]`. */
  lemma NormalTestBins()
    ensures BinsOk(30, 69, 40)
    ensures forall i :: 0 <= i < 40 ==> HistogramBins(30, 69, 40)[i] == Bin(30 + i, 30 + i, 0)
  {
    assert Increment(30, 69, 40) == 0;
  }
}
