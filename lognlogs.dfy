/** The cumulative "N greater than S" histograms of tests/lognlogs/abc.py
    (`calc_cum_hist`).

    The logarithm and the power of ten are transcendental; they are
    parameters here (`log10`, `pow10`), and the lemmas assume of them only
    what the real functions satisfy (monotonicity, and that one undoes the
    other on positive numbers). Counting uses np.histogram's rule from
    module Misc. */
module LogNLogS {
  import opened Wrappers
  import opened Numbers
  import Misc

  /** `np.logspace(min_f, max_f, 50)`: 50 edges, hence 49 bins. */
  const EdgeCount := 50

  /** The i-th of n exponents equally spaced from lo to hi. */
  function Exponent(lo: real, hi: real, n: nat, i: int): real
    requires n >= 2
  {
    lo + (i as real) * ((hi - lo) / ((n - 1) as real))
  }

  lemma ExponentEnds(lo: real, hi: real, n: nat)
    requires n >= 2
    ensures Exponent(lo, hi, n, 0) == lo && Exponent(lo, hi, n, n - 1) == hi
  {
    var step := (hi - lo) / ((n - 1) as real);
    DivMulCancel(hi - lo, (n - 1) as real);
  }

  lemma ExponentMonotone(lo: real, hi: real, n: nat, i: int, j: int)
    requires n >= 2 && lo <= hi && i <= j
    ensures Exponent(lo, hi, n, i) <= Exponent(lo, hi, n, j)
  {
    var step := (hi - lo) / ((n - 1) as real);
    assert step >= 0.0;
    assert (j as real) * step - (i as real) * step == ((j - i) as real) * step;
  }

  /** `np.logspace(lo, hi, n)` in base 10: powers of ten of n exponents
      equally spaced from lo to hi. */
  function LogSpace(lo: real, hi: real, n: nat, pow10: real -> real): (r: seq<real>)
    ensures |r| == n
    ensures n >= 1 ==> r[0] == pow10(lo)
    ensures n >= 2 ==> r[n - 1] == pow10(hi)
  {
    if n <= 1 then seq(n, _ => pow10(lo))
    else
      ExponentEnds(lo, hi, n);
      seq(n, i requires 0 <= i < n => pow10(Exponent(lo, hi, n, i)))
  }

  ghost predicate Monotone(f: real -> real)
  {
    forall a, b :: a <= b ==> f(a) <= f(b)
  }

  lemma LogSpaceNonDecreasing(lo: real, hi: real, n: nat, pow10: real -> real)
    requires lo <= hi && Monotone(pow10)
    ensures Misc.NonDecreasing(LogSpace(lo, hi, n, pow10))
  {
    var r := LogSpace(lo, hi, n, pow10);
    if n >= 2 {
      forall i, j | 0 <= i <= j < n
        ensures r[i] <= r[j]
      {
        ExponentMonotone(lo, hi, n, i, j);
        assert r[i] == pow10(Exponent(lo, hi, n, i));
        assert r[j] == pow10(Exponent(lo, hi, n, j));
      }
    }
  }

  function Reverse(s: seq<real>): (r: seq<real>)
    ensures |r| == |s|
    ensures forall i :: 0 <= i < |s| ==> r[i] == s[|s| - 1 - i]
  {
    seq(|s|, i requires 0 <= i < |s| => s[|s| - 1 - i])
  }

  /** `np.cumsum`: running sums from the front. */
  function CumSum(s: seq<real>): (r: seq<real>)
    ensures |r| == |s|
    ensures s != [] ==> r[0] == s[0]
    ensures forall i :: 0 < i < |s| ==> r[i] == r[i - 1] + s[i]
  {
    var r := seq(|s|, i requires 0 <= i < |s| => Sum(s[..i + 1]));
    assert forall i :: 0 <= i < |s| ==> r[i] == Sum(s[..i]) + s[i] by {
      forall i | 0 <= i < |s|
        ensures r[i] == Sum(s[..i]) + s[i]
      {
        PrefixSumStep(s, i);
      }
    }
    assert s != [] ==> Sum(s[..0]) == 0.0 by {
      if s != [] {
        assert s[..0] == [];
      }
    }
    r
  }

  /** A prefix one longer sums to one more entry. */
  lemma PrefixSumStep(s: seq<real>, i: int)
    requires 0 <= i < |s|
    ensures Sum(s[..i + 1]) == Sum(s[..i]) + s[i]
  {
    assert s[..i + 1] == s[..i] + [s[i]];
    SumConcat(s[..i], [s[i]]);
    assert [s[i]][1..] == [];
  }

  /** `np.cumsum(hist[::-1])[::-1]`. */
  function NGreaterThanS(hist: seq<real>): (r: seq<real>)
    ensures |r| == |hist|
  {
    Reverse(CumSum(Reverse(hist)))
  }

  lemma {:induction false} SumReverse(s: seq<real>)
    ensures Sum(Reverse(s)) == Sum(s)
  {
    if s != [] {
      SumReverse(s[1..]);
      assert Reverse(s) == Reverse(s[1..]) + [s[0]];
      SumConcat(Reverse(s[1..]), [s[0]]);
    }
  }

  /** Entry i of the result is the number of samples in bin i or above:
      the sum of `hist[i:]`. */
  lemma SuffixSums(hist: seq<real>)
    ensures forall i :: 0 <= i < |hist| ==> NGreaterThanS(hist)[i] == Sum(hist[i..])
  {
    var n := |hist|;
    forall i | 0 <= i < n
      ensures NGreaterThanS(hist)[i] == Sum(hist[i..])
    {
      var rev := Reverse(hist);
      assert NGreaterThanS(hist)[i] == Sum(rev[..n - i]);
      assert rev[..n - i] == Reverse(hist[i..]);
      SumReverse(hist[i..]);
    }
  }

  /** A later suffix of non-negative counts sums to no more. */
  lemma SuffixSumShrinks(hist: seq<real>, i: int, j: int)
    requires 0 <= i <= j <= |hist|
    requires forall k :: 0 <= k < |hist| ==> hist[k] >= 0.0
    ensures Sum(hist[j..]) <= Sum(hist[i..])
  {
    assert hist[i..] == hist[i..j] + hist[j..];
    SumConcat(hist[i..j], hist[j..]);
    SumNonNegative(hist[i..j]);
  }

  /** Counts are never negative, so the cumulative curve never rises; it
      starts at the total and ends at the last bin. */
  lemma NGreaterThanSShape(hist: seq<real>)
    requires forall i :: 0 <= i < |hist| ==> hist[i] >= 0.0
    ensures forall i, j :: 0 <= i <= j < |hist| ==> NGreaterThanS(hist)[j] <= NGreaterThanS(hist)[i]
    ensures hist != [] ==> NGreaterThanS(hist)[0] == Sum(hist)
    ensures hist != [] ==> NGreaterThanS(hist)[|hist| - 1] == hist[|hist| - 1]
  {
    SuffixSums(hist);
    var y := NGreaterThanS(hist);
    forall i, j | 0 <= i <= j < |hist|
      ensures y[j] <= y[i]
    {
      SuffixSumShrinks(hist, i, j);
    }
    if hist != [] {
      var last := |hist| - 1;
      assert hist[0..] == hist;
      assert hist[last..] == [hist[last]];
      assert Sum([hist[last]]) == hist[last] + Sum([]);
    }
  }

  /** The edges of one population: 50 logarithmically spaced edges from its
      smallest to its largest value. */
  function Edges(sPeak: seq<real>, log10: real -> real, pow10: real -> real): (r: seq<real>)
    requires sPeak != []
    ensures |r| == EdgeCount
  {
    LogSpace(log10(Misc.MinOf(sPeak)), log10(Misc.MaxOf(sPeak)), EdgeCount, pow10)
  }

  /** The (x, y) pair of one population: the left edges of the bins and the
      number of samples at or above each of them. */
  function CumHist(sPeak: seq<real>, log10: real -> real, pow10: real -> real)
    : (r: (seq<real>, seq<real>))
    requires sPeak != []
    ensures |r.0| == |r.1| == EdgeCount - 1
  {
    var edges := Edges(sPeak, log10, pow10);
    (edges[..EdgeCount - 1], NGreaterThanS(Misc.Counts(sPeak, edges)))
  }

  /** x holds the 49 left edges, y one entry per bin, and y is the suffix
      sum of the bin counts. */
  lemma CumHistShape(sPeak: seq<real>, log10: real -> real, pow10: real -> real)
    requires sPeak != []
    ensures var (x, y) := CumHist(sPeak, log10, pow10);
            var edges := Edges(sPeak, log10, pow10);
            && |x| == |y| == EdgeCount - 1
            && (forall i :: 0 <= i < |x| ==> x[i] == edges[i])
            && forall i :: 0 <= i < |y| ==> y[i] == Sum(Misc.Counts(sPeak, edges)[i..])
  {
    SuffixSums(Misc.Counts(sPeak, Edges(sPeak, log10, pow10)));
  }

  /** With a monotone logarithm and power, y starts at the number of samples
      within the outer edges; when the power undoes the logarithm on the
      (positive) samples, that is every sample. */
  lemma CumHistTotal(sPeak: seq<real>, log10: real -> real, pow10: real -> real)
    requires sPeak != [] && Monotone(log10) && Monotone(pow10)
    ensures var edges := Edges(sPeak, log10, pow10);
            CumHist(sPeak, log10, pow10).1[0] == Misc.CountWithin(sPeak, edges[0], edges[EdgeCount - 1]) as real
    ensures (forall x :: x in sPeak ==> x > 0.0 && pow10(log10(x)) == x) ==>
              CumHist(sPeak, log10, pow10).1[0] == |sPeak| as real
  {
    var lo, hi := Misc.MinOf(sPeak), Misc.MaxOf(sPeak);
    var edges := Edges(sPeak, log10, pow10);
    var counts := Misc.Counts(sPeak, edges);
    assert sPeak[0] in sPeak;
    LogSpaceNonDecreasing(log10(lo), log10(hi), EdgeCount, pow10);
    Misc.CountsCoverRange(sPeak, edges);
    NGreaterThanSShape(counts);
    if forall x :: x in sPeak ==> x > 0.0 && pow10(log10(x)) == x {
      Misc.CountWithinAll(sPeak, edges[0], edges[EdgeCount - 1]);
    }
  }

  /** The ValueError `min()` raises on the empty population `key`. */
  datatype CumHistError = EmptyPopulation(key: string)

  /** `calc_cum_hist(s_peaks)`: one (x, y) entry per population, or the
      error of an empty population. */
  method CalcCumHist(sPeaks: map<string, seq<real>>, log10: real -> real, pow10: real -> real)
    returns (data: Result<map<string, (seq<real>, seq<real>)>, CumHistError>)
    ensures data.Err? <==> exists s :: s in sPeaks && sPeaks[s] == []
    ensures data.Err? ==> data.error.key in sPeaks && sPeaks[data.error.key] == []
    ensures data.Ok? ==> data.value.Keys == sPeaks.Keys
    ensures data.Ok? ==> forall s :: s in sPeaks ==> data.value[s] == CumHist(sPeaks[s], log10, pow10)
  {
    var result: map<string, (seq<real>, seq<real>)> := map[];
    var todo := sPeaks.Keys;
    while todo != {}
      invariant todo <= sPeaks.Keys
      invariant result.Keys == sPeaks.Keys - todo
      invariant forall s :: s in result ==> sPeaks[s] != [] && result[s] == CumHist(sPeaks[s], log10, pow10)
      decreases todo
    {
      var s :| s in todo;
      var sPeak := sPeaks[s];
      if sPeak == [] {
        return Err(EmptyPopulation(s));
      }
      result := result[s := CumHist(sPeak, log10, pow10)];
      todo := todo - {s};
    }
    data := Ok(result);
  }
}
