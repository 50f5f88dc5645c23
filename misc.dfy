/** Convenience functions of frbpoppy/misc.py: the histogram helper `hist`
    and the line prefixer `pprint(..., output=False)`.

    NumPy's `np.histogram` is modelled by its documented rule: for edges
    e[0] <= ... <= e[k], a value x falls into bin i when e[i] <= x < e[i+1],
    except that the last bin also takes x == e[k]. Floating-point rounding is
    not modelled: all arithmetic is exact over the reals. */
module Misc {
  import opened Wrappers
  import opened Numbers

  // ------------------------------------------------------------------
  // Arguments and results of hist
  // ------------------------------------------------------------------

  /** The `bin_type` argument: 'lin', 'log', 'ln' or any other string. */
  datatype BinType = Lin | Log | Ln | OtherType(tag: string)

  /** The `norm` argument: 'max', 'prob', or any other value (no normalisation). */
  datatype Norm = MaxNorm | ProbNorm | NoNorm

  /** The exceptions a call of `hist` can end in. */
  datatype HistError =
    | UnboundBins          // unknown bin_type and no bins: `_bins` is never assigned
    | NoNonZeroValue       // 'log'/'ln': np.min of the empty selection of non-zero values
    | NegativeEdgeCount    // 'log'/'ln': np.logspace asked for a negative number of edges
    | NonPositiveBinCount  // np.histogram: an integer `bins` below 1
    | DecreasingEdges      // np.histogram: explicit edges that decrease somewhere
    | EmptyMaximum         // norm 'max': max() of an empty array of counts
    | NoCentreGap          // edges: np.diff(bins)[-1] with fewer than two centres

  /** `Sentinel` is the pair (NaN, NaN) returned for an empty input. */
  datatype HistOut = Sentinel | Binned(centres: seq<real>, values: seq<Float>)

  /** The default of `n_bins`, which also marks it as "not chosen by the caller". */
  const DefaultBinCount := 25

  // ------------------------------------------------------------------
  // Sequence helpers
  // ------------------------------------------------------------------

  /** NumPy's check on explicit edges: no edge is greater than the next one. */
  predicate Monotonic(e: seq<real>)
  {
    forall i :: 0 <= i < |e| - 1 ==> e[i] <= e[i + 1]
  }

  ghost predicate NonDecreasing(e: seq<real>)
  {
    forall i, j :: 0 <= i <= j < |e| ==> e[i] <= e[j]
  }

  lemma {:induction false} MonotonicIsNonDecreasing(e: seq<real>)
    requires Monotonic(e)
    ensures NonDecreasing(e)
  {
    if |e| > 1 {
      MonotonicIsNonDecreasing(e[1..]);
      forall j | 1 <= j < |e|
        ensures e[0] <= e[j]
      {
        assert e[1..][0] <= e[1..][j - 1];
      }
    }
  }

  function MinOf(s: seq<real>): (r: real)
    requires s != []
    ensures r in s && forall x :: x in s ==> r <= x
  {
    if |s| == 1 then s[0]
    else
      var m := MinOf(s[1..]);
      assert forall x :: x in s ==> x == s[0] || x in s[1..];
      if s[0] <= m then s[0] else m
  }

  function MaxOf(s: seq<real>): (r: real)
    requires s != []
    ensures r in s && forall x :: x in s ==> x <= r
  {
    if |s| == 1 then s[0]
    else
      var m := MaxOf(s[1..]);
      assert forall x :: x in s ==> x == s[0] || x in s[1..];
      if s[0] >= m then s[0] else m
  }

  predicate AllFinite(v: seq<Float>)
  {
    forall i :: 0 <= i < |v| ==> v[i].Finite?
  }

  function Reals(v: seq<Float>): (r: seq<real>)
    requires AllFinite(v)
    ensures |r| == |v| && forall i :: 0 <= i < |v| ==> v[i] == Finite(r[i])
  {
    seq(|v|, i requires 0 <= i < |v| => v[i].v)
  }

  function AsFloats(s: seq<real>): (r: seq<Float>)
    ensures AllFinite(r) && Reals(r) == s
  {
    seq(|s|, i requires 0 <= i < |s| => Finite(s[i]))
  }

  /** IEEE division of a finite number by a finite number. */
  function Divide(a: real, b: real): (r: Float)
    ensures b != 0.0 ==> r == Finite(a / b)
    ensures b == 0.0 ==> (r == NaN <==> a == 0.0)
  {
    if b != 0.0 then Finite(a / b)
    else if a == 0.0 then NaN
    else if a > 0.0 then PosInf
    else NegInf
  }

  // ------------------------------------------------------------------
  // Preprocessing: NaN/inf filter and bin-count rule
  // ------------------------------------------------------------------

  /** `parameter[~(np.isnan(parameter) | np.isinf(parameter))]`: the finite
      values, in their order. */
  function DropNonFinite(s: seq<Float>): (r: seq<real>)
    ensures |r| <= |s|
    ensures forall v :: v in r <==> Finite(v) in s
  {
    if s == [] then []
    else
      assert forall f :: f in s ==> f == s[0] || f in s[1..];
      (if s[0].Finite? then [s[0].v] else []) + DropNonFinite(s[1..])
  }

  /** The filter keeps every finite entry as often as it occurs: each real
      occurs in the result exactly as often as its finite value does in the
      input. */
  lemma {:induction false} DropNonFiniteKeepsEach(s: seq<Float>)
    ensures forall v :: multiset(DropNonFinite(s))[v] == multiset(s)[Finite(v)]
  {
    if s != [] {
      DropNonFiniteKeepsEach(s[1..]);
      assert s == [s[0]] + s[1..];
    }
  }

  /** The number of bins: a value other than the default is kept; the
      default adapts to the number of finite values. */
  function BinCount(nBins: int, n: nat): (r: int)
    ensures nBins != DefaultBinCount ==> r == nBins
    ensures nBins == DefaultBinCount ==> (r == 15 <==> n < 50)
    ensures nBins == DefaultBinCount ==> (r == 50 <==> n > 500)
    ensures nBins == DefaultBinCount ==> (r == DefaultBinCount <==> 50 <= n <= 500)
  {
    if nBins != DefaultBinCount then nBins
    else if n < 50 then 15
    else if n > 500 then 50
    else nBins
  }

  // ------------------------------------------------------------------
  // Bin edges
  // ------------------------------------------------------------------

  /** The range np.histogram uses for an integer `bins`: the minimum and the
      maximum of the data, (0, 1) without data, widened by 0.5 on each side
      when all the data are equal. */
  function OuterEdges(xs: seq<real>): (r: (real, real))
    ensures r.0 < r.1
    ensures forall x :: x in xs ==> r.0 <= x <= r.1
    ensures xs == [] ==> r == (0.0, 1.0)
  {
    if xs == [] then (0.0, 1.0)
    else
      var lo, hi := MinOf(xs), MaxOf(xs);
      if lo == hi then (lo - 0.5, hi + 0.5) else (lo, hi)
  }

  /** The range is exactly (min, max) of the data, widened by 0.5 on each
      side only when every value is the same. */
  lemma OuterEdgesRange(xs: seq<real>)
    requires xs != []
    ensures MinOf(xs) < MaxOf(xs) ==> OuterEdges(xs) == (MinOf(xs), MaxOf(xs))
    ensures MinOf(xs) == MaxOf(xs) ==> OuterEdges(xs) == (MinOf(xs) - 0.5, MaxOf(xs) + 0.5)
    ensures MinOf(xs) == MaxOf(xs) ==> forall x :: x in xs ==> x == MinOf(xs)
  {
  }

  /** `np.linspace(lo, hi, n + 1)`: n + 1 equally spaced edges. */
  function Linspace(lo: real, hi: real, n: nat): (r: seq<real>)
    requires n >= 1
    ensures |r| == n + 1 && r[0] == lo && r[n] == hi
  {
    var step := (hi - lo) / (n as real);
    var r := seq(n + 1, i requires 0 <= i <= n => lo + (i as real) * step);
    assert r[n] == lo + (n as real) * step;
    DivMulCancel(hi - lo, n as real);
    r
  }

  /** The edges are evenly spaced: every gap is (hi - lo) / n. */
  lemma LinspaceEqualWidth(lo: real, hi: real, n: nat)
    requires n >= 1
    ensures forall i :: 0 <= i < n ==> Linspace(lo, hi, n)[i + 1] - Linspace(lo, hi, n)[i] == (hi - lo) / (n as real)
  {
    var r := Linspace(lo, hi, n);
    var step := (hi - lo) / (n as real);
    forall i | 0 <= i < n
      ensures r[i + 1] - r[i] == step
    {
      assert r[i + 1] == lo + ((i + 1) as real) * step && r[i] == lo + (i as real) * step;
      NextMultiple(i, step);
    }
  }

  lemma NextMultiple(k: int, step: real)
    ensures ((k + 1) as real) * step == (k as real) * step + step
  {
  }

  lemma LinspaceNonDecreasing(lo: real, hi: real, n: nat)
    requires n >= 1 && lo <= hi
    ensures NonDecreasing(Linspace(lo, hi, n))
  {
    var r := Linspace(lo, hi, n);
    var step := (hi - lo) / (n as real);
    assert step >= 0.0;
    forall i, j | 0 <= i <= j < |r|
      ensures r[i] <= r[j]
    {
      assert r[j] - r[i] == ((j - i) as real) * step;
    }
  }

  /** `n` equal-width bins over the range of the data. */
  function LinearEdges(xs: seq<real>, n: nat): (r: seq<real>)
    requires n >= 1
    ensures |r| == n + 1 && NonDecreasing(r)
    ensures forall x :: x in xs ==> r[0] <= x <= r[n]
  {
    var (lo, hi) := OuterEdges(xs);
    LinspaceNonDecreasing(lo, hi, n);
    Linspace(lo, hi, n)
  }

  /** The linear edges are of equal width, and their outer edges are
      np.histogram's range of the data: the smallest and the largest value
      unless those are equal. */
  lemma LinearEdgesRange(xs: seq<real>, n: nat)
    requires n >= 1
    ensures var r := LinearEdges(xs, n);
            && (r[0], r[n]) == OuterEdges(xs)
            && (xs != [] && MinOf(xs) < MaxOf(xs) ==> r[0] == MinOf(xs) && r[n] == MaxOf(xs))
            && forall i :: 0 <= i < n ==> r[i + 1] - r[i] == (r[n] - r[0]) / (n as real)
  {
    var (lo, hi) := OuterEdges(xs);
    LinspaceEqualWidth(lo, hi, n);
    if xs != [] {
      OuterEdgesRange(xs);
    }
  }

  predicate HasNonZero(xs: seq<real>)
  {
    exists i :: 0 <= i < |xs| && xs[i] != 0.0
  }

  /** 'log' and 'ln' fail before any logarithm is taken: `np.min` of the
      empty selection of non-zero values, or `np.logspace` asked for a
      negative number of edges. */
  predicate LogEdgesFail(xs: seq<real>, binType: BinType, nb: int)
  {
    (binType == Log || binType == Ln) && (!HasNonZero(xs) || nb < 0)
  }

  /** The edges np.histogram ends up with, or the exception raised on the
      way. For 'log' and 'ln' the source still builds logarithmic edges
      before explicit `bins` override them, and that construction can fail;
      those edges themselves are not modelled, so without explicit `bins`
      the two types are outside this function unless they fail first. */
  function BinEdges(xs: seq<real>, binType: BinType, nb: int, bins: Option<seq<real>>)
    : (r: Result<seq<real>, HistError>)
    requires bins.Some? || binType == Lin || binType.OtherType? || LogEdgesFail(xs, binType, nb)
    ensures (binType == Log || binType == Ln) ==> (r == Err(NoNonZeroValue) <==> !HasNonZero(xs))
    ensures (binType == Log || binType == Ln) && HasNonZero(xs) ==> (r == Err(NegativeEdgeCount) <==> nb < 0)
    ensures (binType == Log || binType == Ln) && bins.Some? ==>
              (r.Ok? <==> HasNonZero(xs) && nb >= 0 && Monotonic(bins.value))
    ensures r.Ok? ==> NonDecreasing(r.value)
    ensures r.Ok? && bins.Some? ==> r.value == bins.value
    ensures bins.None? && binType == Lin ==> (r.Ok? <==> nb >= 1)
    ensures r.Ok? && bins.None? ==> binType == Lin && |r.value| == nb + 1
    ensures r.Ok? && bins.None? ==> forall x :: x in xs ==> r.value[0] <= x <= r.value[nb]
    ensures bins.Some? && (binType == Lin || binType.OtherType?) ==> (r.Ok? <==> Monotonic(bins.value))
    ensures binType.OtherType? && bins.None? ==> r == Err(UnboundBins)
  {
    if (binType == Log || binType == Ln) && !HasNonZero(xs) then Err(NoNonZeroValue)
    else if (binType == Log || binType == Ln) && nb < 0 then Err(NegativeEdgeCount)
    else if bins.Some? then
      if Monotonic(bins.value) then
        MonotonicIsNonDecreasing(bins.value);
        Ok(bins.value)
      else Err(DecreasingEdges)
    else if binType == Lin then
      if nb < 1 then Err(NonPositiveBinCount) else Ok(LinearEdges(xs, nb))
    else Err(UnboundBins)
  }

  // ------------------------------------------------------------------
  // Counting (np.histogram over given edges)
  // ------------------------------------------------------------------

  /** Bin i of edges e takes x: half-open, except the last bin, which is closed. */
  predicate InBin(e: seq<real>, i: nat, x: real)
    requires i + 1 < |e|
    ensures InBin(e, i, x) ==> e[i] <= x <= e[i + 1]
    ensures e[i] <= x < e[i + 1] ==> InBin(e, i, x)
  {
    e[i] <= x && (x < e[i + 1] || (i + 2 == |e| && x == e[i + 1]))
  }

  /** How many values bin i takes. */
  function CountIn(xs: seq<real>, e: seq<real>, i: nat): (r: nat)
    requires i + 1 < |e|
    ensures r <= |xs|
  {
    if xs == [] then 0
    else (if InBin(e, i, xs[0]) then 1 else 0) + CountIn(xs[1..], e, i)
  }

  function NumBins(e: seq<real>): nat
  {
    if |e| < 2 then 0 else |e| - 1
  }

  /** The counts np.histogram returns: one per pair of consecutive edges. */
  function Counts(xs: seq<real>, e: seq<real>): (r: seq<real>)
    ensures |r| == NumBins(e)
    ensures forall i :: 0 <= i < |r| ==> r[i] >= 0.0
  {
    seq(NumBins(e), i requires 0 <= i < NumBins(e) => CountIn(xs, e, i) as real)
  }

  /** Which bin one value falls into, as a 0/1 vector. */
  function Indicator(e: seq<real>, x: real): seq<real>
  {
    seq(NumBins(e), i requires 0 <= i < NumBins(e) => if InBin(e, i, x) then 1.0 else 0.0)
  }

  /** The number of values within [lo, hi]. */
  function CountWithin(xs: seq<real>, lo: real, hi: real): nat
  {
    if xs == [] then 0
    else (if lo <= xs[0] <= hi then 1 else 0) + CountWithin(xs[1..], lo, hi)
  }

  function Add(a: seq<real>, b: seq<real>): (r: seq<real>)
    requires |a| == |b|
    ensures |r| == |a|
  {
    seq(|a|, i requires 0 <= i < |a| => a[i] + b[i])
  }

  lemma {:induction false} SumAdd(a: seq<real>, b: seq<real>)
    requires |a| == |b|
    ensures Sum(Add(a, b)) == Sum(a) + Sum(b)
  {
    if a != [] {
      assert Add(a, b)[1..] == Add(a[1..], b[1..]);
      SumAdd(a[1..], b[1..]);
    }
  }

  lemma {:induction false} SumZeros(s: seq<real>)
    requires forall i :: 0 <= i < |s| ==> s[i] == 0.0
    ensures Sum(s) == 0.0
  {
    if s != [] {
      SumZeros(s[1..]);
    }
  }

  /** With non-decreasing edges, a value inside [e[0], e[k]] falls into
      exactly one bin, and a value outside into none. */
  lemma {:induction false} SumIndicator(e: seq<real>, x: real)
    requires |e| >= 2 && NonDecreasing(e)
    ensures Sum(Indicator(e, x)) == if e[0] <= x <= e[|e| - 1] then 1.0 else 0.0
  {
    var ind := Indicator(e, x);
    if |e| == 2 {
      assert ind == [ind[0]];
    } else {
      var rest := Indicator(e[1..], x);
      assert ind == [ind[0]] + rest by {
        forall i | 0 <= i < |rest|
          ensures ind[i + 1] == rest[i]
        {
          assert InBin(e, i + 1, x) == InBin(e[1..], i, x);
        }
      }
      SumIndicator(e[1..], x);
      assert e[1..][|e| - 2] == e[|e| - 1];
      assert e[0] <= e[1] <= e[|e| - 1];
    }
  }

  lemma CountsCons(xs: seq<real>, e: seq<real>)
    requires xs != []
    ensures Counts(xs, e) == Add(Indicator(e, xs[0]), Counts(xs[1..], e))
  {
  }

  /** Every value inside the outer edges is counted in exactly one bin: the
      counts add up to the number of values within [e[0], e[k]]. */
  lemma {:induction false} CountsCoverRange(xs: seq<real>, e: seq<real>)
    requires |e| >= 2 && NonDecreasing(e)
    ensures Sum(Counts(xs, e)) == CountWithin(xs, e[0], e[|e| - 1]) as real
  {
    if xs == [] {
      SumZeros(Counts(xs, e));
    } else {
      CountsCons(xs, e);
      SumAdd(Indicator(e, xs[0]), Counts(xs[1..], e));
      SumIndicator(e, xs[0]);
      CountsCoverRange(xs[1..], e);
    }
  }

  lemma {:induction false} CountWithinAll(xs: seq<real>, lo: real, hi: real)
    requires forall x :: x in xs ==> lo <= x <= hi
    ensures CountWithin(xs, lo, hi) == |xs|
  {
    if xs != [] {
      assert xs[0] in xs && forall x :: x in xs[1..] ==> x in xs;
      CountWithinAll(xs[1..], lo, hi);
    }
  }

  // ------------------------------------------------------------------
  // Normalisation
  // ------------------------------------------------------------------

  /** Every bin value multiplied by the weight of one sample. */
  function Weighted(counts: seq<real>, w: real): (r: seq<real>)
    ensures |r| == |counts|
  {
    seq(|counts|, i requires 0 <= i < |counts| => counts[i] * w)
  }

  lemma {:induction false} SumWeighted(counts: seq<real>, w: real)
    ensures Sum(Weighted(counts, w)) == Sum(counts) * w
  {
    if counts != [] {
      var r, rest := Weighted(counts, w), Weighted(counts[1..], w);
      assert r[1..] == rest by {
        forall i | 0 <= i < |rest| ensures r[i + 1] == rest[i] {
          assert counts[1..][i] == counts[i + 1];
        }
      }
      SumWeighted(counts[1..], w);
    }
  }

  /** `n / max(n)`. */
  function NormaliseMax(counts: seq<real>): (r: seq<Float>)
    requires counts != []
    ensures |r| == |counts|
  {
    var m := MaxOf(counts);
    seq(|counts|, i requires 0 <= i < |counts| => Divide(counts[i], m))
  }

  /** Normalising by the maximum puts every count in [0, 1] and the largest at 1. */
  lemma NormaliseMaxUnit(counts: seq<real>)
    requires forall i :: 0 <= i < |counts| ==> counts[i] >= 0.0
    requires exists i :: 0 <= i < |counts| && counts[i] > 0.0
    ensures AllFinite(NormaliseMax(counts))
    ensures forall i :: 0 <= i < |counts| ==> 0.0 <= NormaliseMax(counts)[i].v <= 1.0
    ensures exists i :: 0 <= i < |counts| && NormaliseMax(counts)[i] == Finite(1.0)
  {
    var m := MaxOf(counts);
    var r := NormaliseMax(counts);
    var k :| 0 <= k < |counts| && counts[k] > 0.0;
    assert counts[k] in counts;
    assert m > 0.0;
    forall i | 0 <= i < |counts|
      ensures r[i].Finite? && 0.0 <= r[i].v <= 1.0
    {
      assert counts[i] in counts;
      Bounded(counts[i], m);
    }
    var j :| 0 <= j < |counts| && counts[j] == m;
    UnitQuotient(m);
    assert r[j] == Finite(1.0);
  }

  lemma Bounded(c: real, m: real)
    requires 0.0 <= c <= m && m > 0.0
    ensures 0.0 <= c / m <= 1.0
  {
  }

  /** With nothing counted, the maximum is 0 and every value is 0/0 = NaN. */
  lemma NormaliseMaxAllZero(counts: seq<real>)
    requires counts != [] && forall i :: 0 <= i < |counts| ==> counts[i] == 0.0
    ensures forall v :: v in NormaliseMax(counts) ==> v == NaN
  {
  }

  /** The bin values under `norm`, from the counts of `n` finite values. */
  function Normalise(counts: seq<real>, norm: Norm, n: nat): (r: Result<seq<Float>, HistError>)
    ensures r.Ok? ==> |r.value| == |counts|
    ensures r.Err? <==> norm == MaxNorm && counts == []
  {
    match norm
    case MaxNorm => if counts == [] then Err(EmptyMaximum) else Ok(NormaliseMax(counts))
    // weights = np.ones(n) / n; with no values there is no weight to take
    case ProbNorm => Ok(AsFloats(Weighted(counts, if n == 0 then 0.0 else 1.0 / (n as real))))
    case NoNorm => Ok(AsFloats(counts))
  }

  // ------------------------------------------------------------------
  // Centring and padding
  // ------------------------------------------------------------------

  /** `(bin_edges[:-1] + bin_edges[1:]) / 2`. */
  function Centres(e: seq<real>): (r: seq<real>)
    ensures |r| == NumBins(e)
    ensures forall i :: 0 <= i < |r| ==> r[i] - e[i] == e[i + 1] - r[i]
    ensures NonDecreasing(e) ==> forall i :: 0 <= i < |r| ==> e[i] <= r[i] <= e[i + 1]
  {
    seq(NumBins(e), i requires 0 <= i < NumBins(e) => (e[i] + e[i + 1]) / 2.0)
  }

  /** Linear padding: one more zero-valued point at each end, both offset by
      the last gap between centres. */
  function PadLinear(c: seq<real>, v: seq<Float>): (r: (seq<real>, seq<Float>))
    requires |c| >= 2
    ensures |r.0| == |c| + 2 && r.0[1..|c| + 1] == c
    ensures |r.1| == |v| + 2 && r.1[1..|v| + 1] == v
    ensures r.1[0] == Finite(0.0) && r.1[|v| + 1] == Finite(0.0)
    ensures r.0[0] == c[0] - (c[|c| - 1] - c[|c| - 2])
    ensures r.0[|c| + 1] - c[|c| - 1] == c[|c| - 1] - c[|c| - 2]
  {
    var gap := c[|c| - 1] - c[|c| - 2];
    var centres := [c[0] - gap] + c;
    var centres := centres + [centres[|centres| - 1] + gap];
    (centres, [Finite(0.0)] + v + [Finite(0.0)])
  }

  // ------------------------------------------------------------------
  // hist
  // ------------------------------------------------------------------

  /** The paths of `hist` this model covers: everything but the construction
      of logarithmic edges and the padding in log10 space. */
  predicate Modelled(sample: seq<Float>, binType: BinType, nBins: int, edges: bool, bins: Option<seq<real>>)
  {
    || sample == []
    || (var xs := DropNonFinite(sample); LogEdgesFail(xs, binType, BinCount(nBins, |xs|)))
    || ((bins.Some? || binType == Lin || binType.OtherType?) &&
        (!edges || binType == Lin || (binType.OtherType? && bins.None?)))
  }

  /** `hist(parameter, bin_type, n_bins, norm, edges, bins)`. */
  function Hist(sample: seq<Float>, binType: BinType, nBins: int, norm: Norm, edges: bool,
                bins: Option<seq<real>>): (r: Result<HistOut, HistError>)
    requires Modelled(sample, binType, nBins, edges, bins)
    ensures r == Ok(Sentinel) <==> sample == []
    ensures r.Ok? && r.value.Binned? ==> |r.value.centres| == |r.value.values|
    ensures sample != [] && (binType == Log || binType == Ln) ==>
              var xs := DropNonFinite(sample);
              && (!HasNonZero(xs) ==> r == Err(NoNonZeroValue))
              && (HasNonZero(xs) && BinCount(nBins, |xs|) < 0 ==> r == Err(NegativeEdgeCount))
  {
    if |sample| == 0 then Ok(Sentinel)
    else
      var xs := DropNonFinite(sample);
      var nb := BinCount(nBins, |xs|);
      match BinEdges(xs, binType, nb, bins)
      case Err(err) => Err(err)
      case Ok(e) =>
        match Normalise(Counts(xs, e), norm, |xs|)
        case Err(err) => Err(err)
        case Ok(values) =>
          var centres := Centres(e);
          if !edges then Ok(Binned(centres, values))
          else if |centres| < 2 then Err(NoCentreGap)
          else
            var (c, v) := PadLinear(centres, values);
            Ok(Binned(c, v))
  }

  /** The linear path without explicit edges: it fails exactly when the
      bin count (after the adaptive rule) is below 1, or below 2 when
      padding needs a gap between centres; otherwise it yields that many bins,
      plus the two padding points. */
  lemma HistLinearShape(sample: seq<Float>, nBins: int, norm: Norm, edges: bool)
    requires sample != []
    ensures var nb := BinCount(nBins, |DropNonFinite(sample)|);
            var r := Hist(sample, Lin, nBins, norm, edges, None);
            && (r.Ok? <==> nb >= (if edges then 2 else 1))
            && (r.Err? ==> r.error == (if nb < 1 then NonPositiveBinCount else NoCentreGap))
            && (r.Ok? ==> r.value.Binned? && |r.value.values| == nb + (if edges then 2 else 0))
  {
    var xs := DropNonFinite(sample);
    var nb := BinCount(nBins, |xs|);
    var r := Hist(sample, Lin, nBins, norm, edges, None);
    if nb < 1 {
      assert BinEdges(xs, Lin, nb, None) == Err(NonPositiveBinCount);
      assert r == Err(NonPositiveBinCount);
    } else {
      var e := LinearEdges(xs, nb);
      assert BinEdges(xs, Lin, nb, None) == Ok(e);
      assert NumBins(e) == nb;
      var nv := Normalise(Counts(xs, e), norm, |xs|);
      assert nv.Ok? && |nv.value| == nb;
      var c := Centres(e);
      if !edges {
        assert r == Ok(Binned(c, nv.value));
      } else if |c| < 2 {
        assert r == Err(NoCentreGap);
      } else {
        assert r == Ok(Binned(PadLinear(c, nv.value).0, PadLinear(c, nv.value).1));
      }
    }
  }

  /** The path with explicit edges for 'lin' or an unknown type: decreasing
      edges are refused, 'max' needs at least one bin, padding at least two;
      the bins are those between consecutive edges, and the centres between
      the padding points are their midpoints. */
  lemma HistCustomShape(sample: seq<Float>, binType: BinType, nBins: int, norm: Norm, edges: bool,
                        e: seq<real>)
    requires sample != [] && (binType == Lin || binType.OtherType?)
    requires edges ==> binType == Lin
    ensures var r := Hist(sample, binType, nBins, norm, edges, Some(e));
            && (r.Ok? <==> Monotonic(e) && (norm == MaxNorm ==> |e| >= 2) && (!edges || |e| >= 3))
            && (r.Ok? ==> r.value.Binned? &&
                          |r.value.values| == NumBins(e) + (if edges then 2 else 0) &&
                          (if edges then r.value.centres[1..NumBins(e) + 1] else r.value.centres) == Centres(e))
  {
    var xs := DropNonFinite(sample);
    var nb := BinCount(nBins, |xs|);
    var r := Hist(sample, binType, nBins, norm, edges, Some(e));
    if !Monotonic(e) {
      assert BinEdges(xs, binType, nb, Some(e)) == Err(DecreasingEdges);
      assert r == Err(DecreasingEdges);
    } else {
      assert BinEdges(xs, binType, nb, Some(e)) == Ok(e);
      var counts := Counts(xs, e);
      var nv := Normalise(counts, norm, |xs|);
      assert nv.Ok? <==> norm != MaxNorm || |e| >= 2;
      if nv.Err? {
        assert r == Err(EmptyMaximum);
      } else {
        var c := Centres(e);
        if !edges {
          assert r == Ok(Binned(c, nv.value));
        } else if |c| < 2 {
          assert r == Err(NoCentreGap);
        } else {
          assert r == Ok(Binned(PadLinear(c, nv.value).0, PadLinear(c, nv.value).1));
        }
      }
    }
  }

  /** Sum of the weights of every finite value that lies within the edges,
      divided by their number, is one; the padding zeros do not change it. */
  lemma ProbValuesSumToOne(xs: seq<real>, e: seq<real>)
    requires xs != [] && |e| >= 2 && NonDecreasing(e)
    requires forall x :: x in xs ==> e[0] <= x <= e[|e| - 1]
    ensures Sum(Weighted(Counts(xs, e), 1.0 / (|xs| as real))) == 1.0
  {
    var n := |xs| as real;
    CountsCoverRange(xs, e);
    CountWithinAll(xs, e[0], e[|e| - 1]);
    SumWeighted(Counts(xs, e), 1.0 / n);
    assert Sum(Counts(xs, e)) == n;
    DivMulCancel(1.0, n);
  }

  lemma PaddedSum(v: seq<real>)
    ensures Sum([0.0] + v + [0.0]) == Sum(v)
  {
    SumConcat([0.0] + v, [0.0]);
    SumConcat([0.0], v);
  }

  lemma PaddedReals(v: seq<Float>)
    requires AllFinite(v)
    ensures AllFinite([Finite(0.0)] + v + [Finite(0.0)])
    ensures Reals([Finite(0.0)] + v + [Finite(0.0)]) == [0.0] + Reals(v) + [0.0]
  {
  }

  /** Edges that contain every finite value of the sample: those np.histogram
      computes itself, or explicit ones spanning the data. */
  ghost predicate EdgesSpanData(sample: seq<Float>, bins: Option<seq<real>>)
  {
    bins.None? ||
    (|bins.value| >= 2 &&
     forall x :: x in DropNonFinite(sample) ==> bins.value[0] <= x <= bins.value[|bins.value| - 1])
  }

  /** With norm 'prob', every finite value weighs 1/N, so when all of them
      lie within the edges the bin values add up to one. */
  lemma HistProbSumsToOne(sample: seq<Float>, binType: BinType, nBins: int, edges: bool,
                          bins: Option<seq<real>>)
    requires DropNonFinite(sample) != []
    requires Modelled(sample, binType, nBins, edges, bins) && EdgesSpanData(sample, bins)
    requires Hist(sample, binType, nBins, ProbNorm, edges, bins).Ok?
    ensures var out := Hist(sample, binType, nBins, ProbNorm, edges, bins).value;
            out.Binned? && AllFinite(out.values) && Sum(Reals(out.values)) == 1.0
  {
    var xs := DropNonFinite(sample);
    var nb := BinCount(nBins, |xs|);
    var e := BinEdges(xs, binType, nb, bins).value;
    var w := Weighted(Counts(xs, e), 1.0 / (|xs| as real));
    ProbValuesSumToOne(xs, e);
    var out := Hist(sample, binType, nBins, ProbNorm, edges, bins).value;
    if edges {
      PaddedReals(AsFloats(w));
      PaddedSum(w);
    }
  }

  /** Counts of values that all lie within the edges have a positive
      maximum, so normalising by it gives values in [0, 1] reaching 1. */
  lemma MaxValuesUnit(xs: seq<real>, e: seq<real>)
    requires xs != [] && |e| >= 2 && NonDecreasing(e)
    requires forall x :: x in xs ==> e[0] <= x <= e[|e| - 1]
    ensures AllFinite(NormaliseMax(Counts(xs, e)))
    ensures forall v :: v in NormaliseMax(Counts(xs, e)) ==> 0.0 <= v.v <= 1.0
    ensures Finite(1.0) in NormaliseMax(Counts(xs, e))
  {
    var counts := Counts(xs, e);
    CountsCoverRange(xs, e);
    CountWithinAll(xs, e[0], e[|e| - 1]);
    if forall i :: 0 <= i < |counts| ==> counts[i] == 0.0 {
      SumZeros(counts);
      assert false;
    }
    NormaliseMaxUnit(counts);
    var v := NormaliseMax(counts);
    var k :| 0 <= k < |counts| && v[k] == Finite(1.0);
    assert v[k] in v;
  }

  /** With norm 'max', when the finite values lie within the edges, every
      bin value lies in [0, 1] and the fullest bin is exactly 1. */
  lemma HistMaxUnit(sample: seq<Float>, binType: BinType, nBins: int, edges: bool,
                    bins: Option<seq<real>>)
    requires DropNonFinite(sample) != []
    requires Modelled(sample, binType, nBins, edges, bins) && EdgesSpanData(sample, bins)
    requires Hist(sample, binType, nBins, MaxNorm, edges, bins).Ok?
    ensures var out := Hist(sample, binType, nBins, MaxNorm, edges, bins).value;
            && out.Binned? && AllFinite(out.values)
            && (forall v :: v in out.values ==> 0.0 <= v.v <= 1.0)
            && Finite(1.0) in out.values
  {
    var xs := DropNonFinite(sample);
    var nb := BinCount(nBins, |xs|);
    var e := BinEdges(xs, binType, nb, bins).value;
    MaxValuesUnit(xs, e);
    if edges {
      PaddedUnit(NormaliseMax(Counts(xs, e)));
    }
  }

  lemma PaddedUnit(v: seq<Float>)
    requires AllFinite(v) && Finite(1.0) in v
    requires forall f :: f in v ==> 0.0 <= f.v <= 1.0
    ensures var padded := [Finite(0.0)] + v + [Finite(0.0)];
            && AllFinite(padded) && Finite(1.0) in padded
            && forall f :: f in padded ==> 0.0 <= f.v <= 1.0
  {
  }

  /** Without normalisation the bin values are the raw counts: when the
      finite values lie within the edges they add up to the number of
      finite values. */
  lemma HistRawCounts(sample: seq<Float>, binType: BinType, nBins: int, edges: bool,
                      bins: Option<seq<real>>)
    requires Modelled(sample, binType, nBins, edges, bins) && EdgesSpanData(sample, bins)
    requires Hist(sample, binType, nBins, NoNorm, edges, bins).Ok?
    requires sample != []
    ensures var out := Hist(sample, binType, nBins, NoNorm, edges, bins).value;
            && out.Binned? && AllFinite(out.values)
            && Sum(Reals(out.values)) == |DropNonFinite(sample)| as real
  {
    var xs := DropNonFinite(sample);
    var nb := BinCount(nBins, |xs|);
    var e := BinEdges(xs, binType, nb, bins).value;
    var counts := Counts(xs, e);
    CountsCoverRange(xs, e);
    CountWithinAll(xs, e[0], e[|e| - 1]);
    if edges {
      PaddedReals(AsFloats(counts));
      PaddedSum(counts);
    }
  }

  /** With sorted edges the midpoints are sorted too. */
  lemma CentresNonDecreasing(e: seq<real>)
    requires NonDecreasing(e)
    ensures NonDecreasing(Centres(e))
  {
    var c := Centres(e);
    forall i, j | 0 <= i < j < |c|
      ensures c[i] <= c[j]
    {
      assert c[i] <= e[i + 1] && e[i + 1] <= e[j] && e[j] <= c[j];
    }
  }

  /** The padding points extend sorted centres outwards, by a gap that is
      never negative. */
  lemma PadLinearNonDecreasing(c: seq<real>, v: seq<Float>)
    requires |c| >= 2 && NonDecreasing(c)
    ensures NonDecreasing(PadLinear(c, v).0)
  {
    var p := PadLinear(c, v).0;
    var n := |c|;
    assert c[n - 2] <= c[n - 1];
    forall i, j | 0 <= i <= j < |p|
      ensures p[i] <= p[j]
    {
      if 1 <= i && j <= n {
        assert p[i] == c[i - 1] && p[j] == c[j - 1];
      } else if i == 0 && 1 <= j <= n {
        assert p[j] == c[j - 1] && c[0] <= c[j - 1];
      } else if 1 <= i <= n && j == n + 1 {
        assert p[i] == c[i - 1] && c[i - 1] <= c[n - 1];
      }
    }
  }

  /** The centres `hist` returns ascend, padding points included. */
  lemma HistCentresAscend(sample: seq<Float>, binType: BinType, nBins: int, norm: Norm, edges: bool,
                          bins: Option<seq<real>>)
    requires Modelled(sample, binType, nBins, edges, bins)
    requires Hist(sample, binType, nBins, norm, edges, bins).Ok?
    requires sample != []
    ensures var out := Hist(sample, binType, nBins, norm, edges, bins).value;
            out.Binned? && NonDecreasing(out.centres)
  {
    var xs := DropNonFinite(sample);
    var nb := BinCount(nBins, |xs|);
    var e := BinEdges(xs, binType, nb, bins).value;
    CentresNonDecreasing(e);
    if edges {
      var counts := Counts(xs, e);
      var values := Normalise(counts, norm, |xs|).value;
      PadLinearNonDecreasing(Centres(e), values);
    }
  }

  /** The empty-input check runs before the filter: a non-empty input with
      no finite value is binned, and under 'max' normalisation every bin
      value is 0/0 = NaN. */
  lemma HistNoFiniteValue(sample: seq<Float>, nBins: int)
    requires sample != [] && forall i :: 0 <= i < |sample| ==> !sample[i].Finite?
    requires BinCount(nBins, 0) >= 1
    ensures var r := Hist(sample, Lin, nBins, MaxNorm, false, None);
            && r.Ok? && r.value.Binned?
            && |r.value.values| == BinCount(nBins, 0)
            && forall v :: v in r.value.values ==> v == NaN
  {
    var xs := DropNonFinite(sample);
    var nb := BinCount(nBins, 0);
    var e := BinEdges(xs, Lin, nb, None).value;
    NormaliseMaxAllZero(Counts(xs, e));
  }

  // ------------------------------------------------------------------
  // pprint(*s, output=False)
  // ------------------------------------------------------------------

  /** Python's `s.split(sep)` for a one-character separator: the pieces
      between separators, one more than there are separators. */
  function Split(s: string, sep: char): (r: seq<string>)
    ensures |r| >= 1
    ensures forall i :: 0 <= i < |r| ==> sep !in r[i]
    ensures forall i, c :: 0 <= i < |r| && c in r[i] ==> c in s
  {
    if s == [] then [""]
    else
      assert forall c :: c in s[1..] ==> c in s;
      if s[0] == sep then [""] + Split(s[1..], sep)
      else
        var rest := Split(s[1..], sep);
        [[s[0]] + rest[0]] + rest[1..]
  }

  /** Python's `sep.join(parts)` for a one-character separator. */
  function Join(parts: seq<string>, sep: char): (r: string)
    ensures parts == [] ==> r == ""
    ensures parts != [] ==> |parts[0]| <= |r| && r[..|parts[0]|] == parts[0]
  {
    if parts == [] then ""
    else if |parts| == 1 then parts[0]
    else parts[0] + [sep] + Join(parts[1..], sep)
  }

  /** A character put in front of the first piece goes in front of the join. */
  lemma JoinConsHead(c: char, parts: seq<string>, sep: char)
    requires parts != []
    ensures Join([[c] + parts[0]] + parts[1..], sep) == [c] + Join(parts, sep)
  {
    var ps := [[c] + parts[0]] + parts[1..];
    if |parts| > 1 {
      assert ps[1..] == parts[1..];
    }
  }

  /** Joining the pieces of a split gives back the string. */
  lemma {:induction false} JoinSplit(s: string, sep: char)
    ensures Join(Split(s, sep), sep) == s
  {
    if s != [] {
      JoinSplit(s[1..], sep);
      var rest := Split(s[1..], sep);
      if s[0] == sep {
        assert Split(s, sep) == [""] + rest;
        assert ([""] + rest)[1..] == rest;
      } else {
        assert Split(s, sep) == [[s[0]] + rest[0]] + rest[1..];
        JoinConsHead(s[0], rest, sep);
        assert s == [s[0]] + s[1..];
      }
    }
  }

  /** A piece without the separator, followed by the separator. */
  lemma {:induction false} SplitPiece(a: string, rest: string, sep: char)
    requires sep !in a
    ensures Split(a + [sep] + rest, sep) == [a] + Split(rest, sep)
  {
    if a != [] {
      assert (a + [sep] + rest)[1..] == a[1..] + [sep] + rest;
      SplitPiece(a[1..], rest, sep);
      assert [a[0]] + a[1..] == a;
    }
  }

  lemma {:induction false} SplitPlain(a: string, sep: char)
    requires sep !in a
    ensures Split(a, sep) == [a]
  {
    if a != [] {
      SplitPlain(a[1..], sep);
      assert [a[0]] + a[1..] == a;
    }
  }

  /** Splitting a join of separator-free pieces gives back the pieces. */
  lemma {:induction false} SplitJoin(parts: seq<string>, sep: char)
    requires parts != [] && forall i :: 0 <= i < |parts| ==> sep !in parts[i]
    ensures Split(Join(parts, sep), sep) == parts
  {
    if |parts| == 1 {
      SplitPlain(parts[0], sep);
    } else {
      SplitJoin(parts[1..], sep);
      SplitPiece(parts[0], Join(parts[1..], sep), sep);
    }
  }

  /** Joining two non-empty lists joins their joins. */
  lemma {:induction false} JoinAppend(a: seq<string>, b: seq<string>, sep: char)
    requires a != [] && b != []
    ensures Join(a + b, sep) == Join(a, sep) + [sep] + Join(b, sep)
  {
    if |a| > 1 {
      assert (a + b)[1..] == a[1..] + b;
      JoinAppend(a[1..], b, sep);
    } else {
      assert (a + b)[1..] == b;
    }
  }

  /** `path.split('/')[-1]`. */
  function Basename(path: string): (r: string)
    ensures '/' !in r
    ensures forall c :: c in r ==> c in path
  {
    var pieces := Split(path, '/');
    pieces[|pieces| - 1]
  }

  /** `'{:13.13} |'.format(f)`: the name cut to 13 characters, padded with
      spaces to 13, then " |". */
  function Tag(f: string): (r: string)
    ensures |r| == 15 && r[13..] == " |"
    ensures |f| >= 13 ==> r[..13] == f[..13]
    ensures |f| < 13 ==> r[..|f|] == f && forall i :: |f| <= i < 13 ==> r[i] == ' '
    ensures forall c :: c in r ==> c in f || c == ' ' || c == '|'
  {
    var cut := if |f| >= 13 then f[..13] else f;
    cut + seq(13 - |cut|, _ => ' ') + " |"
  }

  /** `[f'{m} {f}' for f in lines]`. */
  function Prefixed(m: string, lines: seq<string>): (r: seq<string>)
    ensures |r| == |lines|
  {
    seq(|lines|, j requires 0 <= j < |lines| => m + " " + lines[j])
  }

  /** All the lists of a list, one after the other. */
  function Flatten(xss: seq<seq<string>>): seq<string>
  {
    if xss == [] then [] else xss[0] + Flatten(xss[1..])
  }

  function LineCount(xss: seq<seq<string>>): nat
  {
    if xss == [] then 0 else |xss[0]| + LineCount(xss[1..])
  }

  lemma {:induction false} FlattenLength(xss: seq<seq<string>>)
    ensures |Flatten(xss)| == LineCount(xss)
  {
    if xss != [] {
      FlattenLength(xss[1..]);
    }
  }

  /** The lines of every argument, each with the tag and a space in front. */
  function TaggedLines(m: string, s: seq<string>): (r: seq<seq<string>>)
    ensures |r| == |s|
  {
    seq(|s|, i requires 0 <= i < |s| => Prefixed(m, Split(s[i], '\n')))
  }

  function JoinEach(groups: seq<seq<string>>, sep: char): (r: seq<string>)
    ensures |r| == |groups|
  {
    seq(|groups|, i requires 0 <= i < |groups| => Join(groups[i], sep))
  }

  predicate NonEmptyGroups(groups: seq<seq<string>>)
  {
    forall i :: 0 <= i < |groups| ==> groups[i] != []
  }

  /** Joining each group and then the results is joining all the lines. */
  lemma {:induction false} JoinGroups(groups: seq<seq<string>>, sep: char)
    requires groups != [] && NonEmptyGroups(groups)
    ensures Flatten(groups) != []
    ensures Join(JoinEach(groups, sep), sep) == Join(Flatten(groups), sep)
  {
    var joined := JoinEach(groups, sep);
    if |groups| == 1 {
      assert Flatten(groups) == groups[0] + Flatten([]) == groups[0];
      assert joined == [Join(groups[0], sep)];
    } else {
      var tail := groups[1..];
      assert joined[1..] == JoinEach(tail, sep);
      JoinGroups(tail, sep);
      JoinAppend(groups[0], Flatten(tail), sep);
    }
  }

  lemma {:induction false} FlattenFree(groups: seq<seq<string>>, sep: char)
    requires forall i, j :: 0 <= i < |groups| && 0 <= j < |groups[i]| ==> sep !in groups[i][j]
    ensures forall k :: 0 <= k < |Flatten(groups)| ==> sep !in Flatten(groups)[k]
  {
    if groups != [] {
      FlattenFree(groups[1..], sep);
      var f := Flatten(groups);
      forall k | 0 <= k < |f|
        ensures sep !in f[k]
      {
        if k >= |groups[0]| {
          assert f[k] == Flatten(groups[1..])[k - |groups[0]|];
        }
      }
    }
  }

  /** The text `pprint(*s, output=False)` returns under tag `m`: the
      prefixed lines of each argument joined with newlines, and those
      results joined with newlines again. */
  function PrefixText(m: string, s: seq<string>): (r: string)
    ensures s == [] ==> r == ""
  {
    Join(JoinEach(TaggedLines(m, s), '\n'), '\n')
  }

  lemma TaggedLinesFree(m: string, s: seq<string>)
    requires '\n' !in m
    ensures NonEmptyGroups(TaggedLines(m, s))
    ensures forall i, j :: 0 <= i < |s| && 0 <= j < |TaggedLines(m, s)[i]| ==>
              '\n' !in TaggedLines(m, s)[i][j]
  {
  }

  /** The lines of the text are exactly the lines of the arguments, in
      order, each with the tag and a space in front; so each argument keeps
      its number of lines. */
  lemma PrefixTextLines(m: string, s: seq<string>)
    requires s != [] && '\n' !in m
    ensures Split(PrefixText(m, s), '\n') == Flatten(TaggedLines(m, s))
    ensures |Split(PrefixText(m, s), '\n')|
            == LineCount(seq(|s|, i requires 0 <= i < |s| => Split(s[i], '\n')))
  {
    var groups := TaggedLines(m, s);
    TaggedLinesFree(m, s);
    JoinGroups(groups, '\n');
    FlattenFree(groups, '\n');
    SplitJoin(Flatten(groups), '\n');
    FlattenLength(groups);
    SameLineCount(m, s);
  }

  lemma {:induction false} SameLineCount(m: string, s: seq<string>)
    ensures LineCount(TaggedLines(m, s)) == LineCount(seq(|s|, i requires 0 <= i < |s| => Split(s[i], '\n')))
  {
    if s != [] {
      SameLineCount(m, s[1..]);
      assert TaggedLines(m, s)[1..] == TaggedLines(m, s[1..]);
      var pieces := seq(|s|, i requires 0 <= i < |s| => Split(s[i], '\n'));
      assert pieces[1..] == seq(|s| - 1, i requires 0 <= i < |s| - 1 => Split(s[1..][i], '\n'));
    }
  }

  /** `pprint(*s, output=False)` called from the file at path `caller`. */
  method PPrint(caller: string, s: seq<string>) returns (out: string)
    ensures out == PrefixText(Tag(Basename(caller)), s)
    ensures s == [] ==> out == ""
    ensures s != [] && '\n' !in caller ==>
              Split(out, '\n') == Flatten(TaggedLines(Tag(Basename(caller)), s))
  {
    var m := Tag(Basename(caller));
    var lines: seq<string> := [];
    for k := 0 to |s|
      invariant lines == JoinEach(TaggedLines(m, s)[..k], '\n')
    {
      lines := lines + [Join(Prefixed(m, Split(s[k], '\n')), '\n')];
      assert TaggedLines(m, s)[..k + 1] == TaggedLines(m, s)[..k] + [TaggedLines(m, s)[k]];
    }
    out := Join(lines, '\n');
    assert TaggedLines(m, s)[..|s|] == TaggedLines(m, s);
    if s != [] && '\n' !in caller {
      PrefixTextLines(m, s);
    }
  }
}
