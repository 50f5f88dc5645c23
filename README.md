# frbpoppy core in Dafny

This project models the discrete parts of frbpoppy, a population synthesis
code for fast radio bursts (FRBs). All arithmetic is exact over the reals.

- **Rate counters** (`frbpoppy/rates.py`). A `Rates` object counts the
  bursts that a survey detected, that were too faint, that arrived too late,
  and that fell outside the survey. `scale` returns an area-scaled deep copy
  of a counter. The counter's value is the datatype `Rates.Tally`. The
  mutable object is the class `Rates.Rates`. The method `Rates.Scale` is
  proved against the pure function `Rates.Scaled`. `tot` and `exp` are
  functions of the object (they read it and change nothing).
- **Histogram helper** `hist` (`frbpoppy/misc.py`). The model covers:
  - the empty-input check and the NaN/infinity filter;
  - the adaptive bin count;
  - linear edges and explicit edges;
  - np.histogram's counting rule: bins are half-open and the last bin is
    closed;
  - 'prob' and 'max' normalisation, the bin centres, and linear padding;
  - every exception raised on those paths.

  Bin values are IEEE values (`Numbers.Float`), because 'max' normalisation
  of an all-zero histogram gives 0/0 = NaN.
- **Line prefixer** `pprint(..., output=False)` (`frbpoppy/misc.py`). It is
  a loop proved against the function `Misc.PrefixText`. Its output's lines
  are shown to be exactly the input lines, each with the caller's tag in
  front.
- **Cumulative "N greater than S" histogram** `calc_cum_hist`
  (`tests/lognlogs/abc.py`). It is a loop over the populations of a map. The
  logarithm and the power of ten are passed in as functions
  (`log10`, `pow10`).
- **Repeater fraction per day** (`tests/chime/sim_rep_frac.py`). Two loops:
  one for a simulated burst-time matrix and one for the CHIME catalogue.
- **Null-point selection** (`tests/calc_null_sidelobes.py`). It finds where
  the sign of the differences of a sampled curve rises.

In the model, a Python NaN result is `Option.None` or `Float.NaN`. An
exception is `Result.Err` with a named error: a `Misc.HistError` for `hist`,
and `LogNLogS.CumHistError` (the empty population's key) for
`calc_cum_hist`. The division by zero that `exp` and the CHIME loop catch
becomes `Option.None`, as the NaN they return.

## Model

| member | source | states |
|---|---|---|
| Rates.Tally.Exp | frbpoppy/rates.py:52-58 | NaN (`None`) exactly when nothing was detected; otherwise the value times `det` is `days` |
| Rates.Tally.Tot | frbpoppy/rates.py:48-50 | `tot()`: the sum of `det`, `out`, `faint` and `late`; `EmptyHasNoEvents` and `ScaledTotalPreservedIff` state what it is before and after scaling |
| Rates.Rates.constructor | frbpoppy/rates.py:10-25 | a new counter has all counts, `vol` and `days` 0, `name` '', both factors 1 and both flags false |
| Rates.Rates.Tot | frbpoppy/rates.py:48-50 | `tot()` of the object is the total of the value it holds |
| Rates.Rates.Exp | frbpoppy/rates.py:52-58 | `exp` of the object is NaN (`None`) exactly when `det` is 0; otherwise it times `det` is `days` |
| Rates.EmptyHasNoEvents | frbpoppy/rates.py:10-58 | a new counter totals 0 and its `exp` is NaN |
| Rates.Scaled | frbpoppy/rates.py:61-73 | without `area` the value is unchanged; with it `det`, `late`, `faint` are multiplied by `f_area`, `scaled_area` is set, `out` is the absolute residual, and `vol`, `days`, `name`, `f_area`, `f_time`, `scaled_time` are kept |
| Rates.ScaledOutNonNegative | frbpoppy/rates.py:71 | after area scaling `out` is never negative |
| Rates.ScaledTotalPreservedIff | frbpoppy/rates.py:67-71 | area scaling keeps `tot()` if and only if the residual is non-negative; a negative residual makes the total grow |
| Rates.ScaleTwiceCompounds | frbpoppy/rates.py:65-70 | with no guard on `scaled_area`, scaling twice multiplies `det`, `late` and `faint` by `f_area` squared |
| Rates.ScaleNotIdempotent | frbpoppy/rates.py:65-70 | with a detection and a factor other than 0 and 1, a second scaling changes `det` again |
| Rates.ScaleTenDetections | frbpoppy/rates.py:65-71 | ten detections with factor 2 become twenty, and `out` becomes 10 |
| Rates.DeepCopy | frbpoppy/rates.py:63 | a new object holding the same value |
| Rates.Scale | frbpoppy/rates.py:61-73 | returns a new object holding `Scaled(old value, area)` and leaves its argument unchanged |
| Misc.MonotonicIsNonDecreasing | frbpoppy/misc.py:106 | np.histogram's adjacent-edge check implies the edges are sorted |
| Misc.DropNonFinite | frbpoppy/misc.py:74 | a value is kept exactly when it is a finite value of the input; nothing is added |
| Misc.DropNonFiniteKeepsEach | frbpoppy/misc.py:74 | every finite entry is kept with its multiplicity: each real occurs in the result as often as its finite value occurs in the input |
| Misc.BinCount | frbpoppy/misc.py:77-82 | a count other than 25 is kept; otherwise 15 below 50 finite values, 50 above 500, and 25 between |
| Misc.OuterEdges | frbpoppy/misc.py:106 | np.histogram's range for an integer `bins`: it contains every value, is (0, 1) without data, and is never empty |
| Misc.OuterEdgesRange | frbpoppy/misc.py:106 | for data, the range is exactly (min, max), and it is widened by 0.5 on each side only when every value is the same |
| Misc.Linspace | frbpoppy/misc.py:85-86 | n + 1 edges from the lower bound to the upper |
| Misc.LinspaceEqualWidth | frbpoppy/misc.py:85-86 | every gap between consecutive edges is (hi - lo) / n |
| Misc.LinspaceNonDecreasing | frbpoppy/misc.py:85-86 | linear edges over an ordered range are sorted |
| Misc.LinearEdges | frbpoppy/misc.py:85-86 | n + 1 sorted edges spanning every value |
| Misc.LinearEdgesRange | frbpoppy/misc.py:85-86 | the linear edges have equal width, and their outer edges are np.histogram's range of the data: its smallest and largest value unless those are equal |
| Misc.BinEdges | frbpoppy/misc.py:84-98 | 'log'/'ln' fail with `NoNonZeroValue` exactly when no value is non-zero, and otherwise with `NegativeEdgeCount` exactly when the bin count is negative, explicit `bins` or not; with explicit `bins` they then succeed exactly when the edges never decrease. Explicit `bins` override the type and are refused when they decrease. 'lin' fails exactly when the bin count is below 1, and otherwise gives that many bins spanning the data. An unknown type without `bins` fails (unbound `_bins`). Edges returned are always sorted |
| Misc.InBin | frbpoppy/misc.py:106 | a value in bin i lies between its two edges; every value in [e[i], e[i+1]) is in it |
| Misc.CountIn | frbpoppy/misc.py:106 | the number of values bin i takes, at most all of them; `CountsCoverRange` gives the total over the bins |
| Misc.Counts | frbpoppy/misc.py:106 | one non-negative count per pair of consecutive edges |
| Misc.SumIndicator | frbpoppy/misc.py:106 | with sorted edges, a value inside the outer edges falls into exactly one bin; a value outside falls into none |
| Misc.CountsCoverRange | frbpoppy/misc.py:106 | the counts add up to the number of values within the outer edges |
| Misc.CountWithinAll | frbpoppy/misc.py:106 | when every value lies within the bounds, all of them are counted |
| Misc.Weighted | frbpoppy/misc.py:101-106 | one weighted value per count; `SumWeighted` gives its total |
| Misc.SumWeighted | frbpoppy/misc.py:101-106 | weighting every sample by w scales the total by w |
| Misc.NormaliseMax | frbpoppy/misc.py:108-109 | `n / max(n)`: one value per count; `NormaliseMaxUnit` and `NormaliseMaxAllZero` give its range |
| Misc.NormaliseMaxUnit | frbpoppy/misc.py:108-109 | dividing non-negative counts, not all zero, by their maximum gives finite values in [0, 1], one of which is 1 |
| Misc.NormaliseMaxAllZero | frbpoppy/misc.py:108-109 | dividing all-zero counts by their maximum gives NaN everywhere |
| Misc.Normalise | frbpoppy/misc.py:100-109 | one value per count; fails exactly for 'max' with no counts (max of an empty array) |
| Misc.Centres | frbpoppy/misc.py:112 | one centre per bin, equidistant from its two edges, and between them when the edges are sorted |
| Misc.PadLinear | frbpoppy/misc.py:116-121 | one zero-valued point added at each end; interior centres and values unchanged; both new centres offset by the last centre gap |
| Misc.Hist | frbpoppy/misc.py:51-129 | returns the (NaN, NaN) sentinel exactly for an empty input; 'log'/'ln' with no non-zero finite value fail with `NoNonZeroValue`, and with a negative bin count with `NegativeEdgeCount`; otherwise centres and values have equal length |
| Misc.HistLinearShape | frbpoppy/misc.py:77-121 | 'lin' without explicit edges succeeds exactly when the adapted bin count is at least 1 (2 with padding), names the error otherwise, and yields that many values plus the two pads |
| Misc.HistCustomShape | frbpoppy/misc.py:96-121 | explicit edges succeed exactly when they never decrease, leave a bin for 'max', and leave two for padding; the values number the bins, and the centres are the edge midpoints |
| Misc.ProbValuesSumToOne | frbpoppy/misc.py:101-106 | with weights 1/N and every value within the edges, the bin values sum to 1 |
| Misc.PaddedSum | frbpoppy/misc.py:120-121 | the padding zeros do not change the sum |
| Misc.HistProbSumsToOne | frbpoppy/misc.py:101-129 | with 'prob', when the edges span the finite values, the returned values are finite and sum to 1 |
| Misc.MaxValuesUnit | frbpoppy/misc.py:106-109 | counts of values within the edges, normalised by their maximum, lie in [0, 1] and reach 1 |
| Misc.HistMaxUnit | frbpoppy/misc.py:106-129 | with 'max', when the edges span the finite values, every returned value is in [0, 1] and one is 1 |
| Misc.HistNoFiniteValue | frbpoppy/misc.py:70-109 | the empty check runs before the filter: a non-empty input with no finite value is still binned, and under 'max' every value is NaN |
| Misc.HistRawCounts | frbpoppy/misc.py:100-121 | without normalisation, when the edges span the finite values, the returned values are finite counts that add up to the number of finite values |
| Misc.CentresNonDecreasing | frbpoppy/misc.py:112 | the midpoints of sorted edges are sorted |
| Misc.PadLinearNonDecreasing | frbpoppy/misc.py:116-119 | padding sorted centres by the last gap keeps them sorted |
| Misc.HistCentresAscend | frbpoppy/misc.py:106-129 | the centres `hist` returns never decrease, padding points included |
| Misc.Split | frbpoppy/misc.py:19 | `str.split` with one separator: at least one piece, no piece holds the separator, every character comes from the input |
| Misc.JoinSplit | frbpoppy/misc.py:19 | joining the pieces of a split gives back the string |
| Misc.Join | frbpoppy/misc.py:19-20 | `sep.join`: "" for no pieces, and the first piece leads the result; `JoinSplit` and `SplitJoin` make it the inverse of `Split` |
| Misc.SplitJoin | frbpoppy/misc.py:19-20 | splitting a join of separator-free pieces gives back the pieces |
| Misc.Basename | frbpoppy/misc.py:11 | the last '/'-separated piece of the caller's path: no '/', characters from the path |
| Misc.Tag | frbpoppy/misc.py:12 | the `{:13.13}` format followed by a space and a bar: 15 characters, the name cut or space-padded to 13 |
| Misc.PrefixTextLines | frbpoppy/misc.py:16-20 | the lines of the text are the arguments' lines in order, each prefixed with the tag and a space, so the line count is kept |
| Misc.PrefixText | frbpoppy/misc.py:16-20 | the text returned for tag `m`: "" for no arguments; `PrefixTextLines` gives its lines |
| Misc.PPrint | frbpoppy/misc.py:9-20 | with `output=False`: returns `PrefixText` of the caller's tag, "" for no arguments, and (for a caller path without newlines) exactly the prefixed lines |
| LogNLogS.LogSpace | tests/lognlogs/abc.py:60 | n edges, the first and last the powers of the two bounds |
| LogNLogS.LogSpaceNonDecreasing | tests/lognlogs/abc.py:58-60 | with a monotone power, logarithmic edges over an ordered range are sorted |
| LogNLogS.Reverse | tests/lognlogs/abc.py:62 | `[::-1]`: entry i is the input's entry n - 1 - i |
| LogNLogS.CumSum | tests/lognlogs/abc.py:62 | `np.cumsum`: starts at the first entry, and each entry is the previous one plus the input's entry |
| LogNLogS.NGreaterThanS | tests/lognlogs/abc.py:62 | one entry per bin; `SuffixSums` and `NGreaterThanSShape` give its entries |
| LogNLogS.Edges | tests/lognlogs/abc.py:58-60 | 50 edges per population |
| LogNLogS.CumHist | tests/lognlogs/abc.py:57-64 | x and y of one population both have 49 entries; `CumHistShape` gives their entries |
| LogNLogS.SumReverse | tests/lognlogs/abc.py:62 | reversing does not change a sum |
| LogNLogS.SuffixSums | tests/lognlogs/abc.py:62 | entry i of `cumsum(hist[::-1])[::-1]` is the sum of `hist[i:]` |
| LogNLogS.NGreaterThanSShape | tests/lognlogs/abc.py:61-62 | for non-negative counts the curve never rises, starts at the total and ends at the last bin |
| LogNLogS.CumHistShape | tests/lognlogs/abc.py:60-65 | x holds the 49 left edges, y one suffix sum per bin, both of length 49 |
| LogNLogS.CumHistTotal | tests/lognlogs/abc.py:58-62 | y[0] is the number of samples within the outer edges; when the power undoes the logarithm on positive samples, that is every sample |
| LogNLogS.CalcCumHist | tests/lognlogs/abc.py:52-69 | fails exactly when some population is empty (`min` of nothing), naming such a population; otherwise one (x, y) entry per key, which is that population's cumulative histogram |
| RepeaterFraction.Fraction | tests/chime/sim_rep_frac.py:75 | NaN exactly for 0/0; otherwise a proportion in [0, 1] which, times the denominator, is the number of repeaters |
| RepeaterFraction.Seen | tests/chime/sim_rep_frac.py:71-73 | the number of a source's bursts before the day, at most its number of entries |
| RepeaterFraction.SeenSkips | tests/chime/sim_rep_frac.py:72 | a time not strictly before the day, NaN included, is not counted |
| RepeaterFraction.SeenMonotone | tests/chime/sim_rep_frac.py:72 | a later day sees at least as many bursts |
| RepeaterFraction.Repeaters | tests/chime/sim_rep_frac.py:73 | the number of sources seen more than once, at most the number of sources |
| RepeaterFraction.OneOffs | tests/chime/sim_rep_frac.py:74 | the number of sources seen exactly once, at most the number of sources |
| RepeaterFraction.ClassesPartition | tests/chime/sim_rep_frac.py:73-74 | repeaters and one-offs are disjoint, together make up the detected sources, and are at most all sources |
| RepeaterFraction.ClassesMonotone | tests/chime/sim_rep_frac.py:72-74 | repeaters and detected sources never decrease as the day advances |
| RepeaterFraction.SimFraction | tests/chime/sim_rep_frac.py:73-75 | NaN exactly when there are neither repeaters nor one-offs; otherwise, times their sum, the number of repeaters |
| RepeaterFraction.SimFractionDefined | tests/chime/sim_rep_frac.py:73-75 | the day's fraction is NaN exactly when no source has been seen, and otherwise lies in [0, 1] |
| RepeaterFraction.SimFractions | tests/chime/sim_rep_frac.py:70-76 | one fraction per day, in the order of the days |
| RepeaterFraction.ChimeRepeaters | tests/chime/sim_rep_frac.py:88 | the count of `dt <= day`, at most the number of repeaters |
| RepeaterFraction.ChimeRepeatersMonotone | tests/chime/sim_rep_frac.py:88 | the CHIME repeater count never decreases with the day |
| RepeaterFraction.ChimeOneOffs | tests/chime/sim_rep_frac.py:89 | `2*day`: zero exactly on day 0, and at least the day |
| RepeaterFraction.ChimeFraction | tests/chime/sim_rep_frac.py:88-93 | the fraction on one CHIME day: in [0, 1] when defined, and defined on every day after day 0 |
| RepeaterFraction.ChimeFractionCases | tests/chime/sim_rep_frac.py:88-93 | the caught ZeroDivisionError (NaN) happens exactly on day 0 with no repeater; day 0 with one gives 1 |
| RepeaterFraction.ChimeFractions | tests/chime/sim_rep_frac.py:86-94 | 301 entries, entry d being the fraction on day d |
| NullSidelobes.Sign | tests/calc_null_sidelobes.py:16 | the float -1, 0 or 1, with the sign of its argument |
| NullSidelobes.Diff | tests/calc_null_sidelobes.py:16 | one difference of neighbours fewer than the input |
| NullSidelobes.Signs | tests/calc_null_sidelobes.py:16 | the sign of every entry |
| NullSidelobes.Turns | tests/calc_null_sidelobes.py:16 | `ind`: one entry per interior sample |
| NullSidelobes.TurnsEntries | tests/calc_null_sidelobes.py:16 | entry k of `ind` is sign(y[k+2] - y[k+1]) - sign(y[k+1] - y[k]), so between -2 and 2 |
| NullSidelobes.Interior | tests/calc_null_sidelobes.py:17-18 | `s[1:-1]`: two fewer entries, entry k being s[k + 1] |
| NullSidelobes.TurnsLength | tests/calc_null_sidelobes.py:16-17 | `ind` has one entry per interior sample |
| NullSidelobes.PositionsSpec | tests/calc_null_sidelobes.py:17-18 | the selected positions are ascending, within range, and exactly where the mask is positive |
| NullSidelobes.SelectAtPositions | tests/calc_null_sidelobes.py:17-18 | mask selection picks the values at the selected positions |
| NullSidelobes.NullIndices | tests/calc_null_sidelobes.py:17 | at most one index per interior sample; `NullIndexIff` says which |
| NullSidelobes.XNull | tests/calc_null_sidelobes.py:17 | `x_null` has one entry per null index; `NullsPaired` gives the entries |
| NullSidelobes.YNull | tests/calc_null_sidelobes.py:18 | `y_null` has one entry per null index; `NullsPaired` gives the entries |
| NullSidelobes.NullIndexIff | tests/calc_null_sidelobes.py:16-17 | i is selected if and only if 1 <= i <= n - 2 and sign(y[i] - y[i-1]) < sign(y[i+1] - y[i]); so the endpoints never are |
| NullSidelobes.NullIsLocalMinimum | tests/calc_null_sidelobes.py:16-18 | i is selected if and only if it is interior, no higher than either neighbour, and not level with both |
| NullSidelobes.NullIndicesOrdered | tests/calc_null_sidelobes.py:17-18 | the selected indices ascend and exclude the endpoints |
| NullSidelobes.SelectAtNulls | tests/calc_null_sidelobes.py:17-18 | masking the interior of any curve as long as `y` with `ind > 0` picks its entries at the null indices |
| NullSidelobes.NullsPaired | tests/calc_null_sidelobes.py:17-18 | `x_null` and `y_null` have one entry per selected index, both taken from that sample |

## Left out

- `poisson_interval` (frbpoppy/misc.py:132-148) depends on scipy's `chi2.ppf` and on numerical integration. These are foreign floating-point numerics.
- `progressbar` (frbpoppy/misc.py:23-48) is a generator that only prints.
- `pprint` with `output=True` only prints.
- `Rates.__str__` (frbpoppy/rates.py:27-46) only formats text. Its `pprint` import from frbpoppy/log.py is not part of this model.
- Misc.Hist: the construction of 'log' and 'ln' edges (frbpoppy/misc.py:87-94) and the padding in log10 space (frbpoppy/misc.py:122-127) are outside the model. They need logarithms and powers, so `Misc.Modelled` excludes those paths.
  - The errors raised before those edges are built are modelled, with or without explicit `bins`. These are 'log'/'ln' with no non-zero value, and a negative edge count.
  - With explicit `bins` and `edges=False`, 'log' and 'ln' are modelled fully, because the explicit edges replace the logarithmic ones.
- Misc.Hist: values are finite reals, NaN or ±infinity. The list-to-array conversion (lines 67-68) is implicit.
- Misc.Hist: default arguments are not modelled; every argument is explicit. The source's defaults are `bin_type='lin'`, `n_bins=25`, `norm='max'`, `edges=True` and `bins=None`, and `scale`'s `area=True`. An integer `bins`, which np.histogram would also accept, is not modelled: `bins` is a sequence of edges or absent.
- Misc.Hist: a `norm` other than 'max' or 'prob' is represented by one value, `NoNorm`.
- Misc.Hist: a string `bin_type` other than 'lin', 'log' or 'ln' is carried as `OtherType`.
- Floating-point rounding is not modelled anywhere. All arithmetic is exact over the reals.
- LogNLogS.CumHistTotal: the claim that all samples are counted uses exact arithmetic. Under rounding, `10**log10(max)` can fall just below the maximum and leave it uncounted.
- LogNLogS: `np.log10` and `10**x` are function parameters. Non-positive fluxes, where the logarithm is NaN or -infinity, are not modelled.
- LogNLogS.CalcCumHist: the order of dict iteration is not modelled. The result is a map, and any empty population makes the whole call fail.
- `pprint` finds its caller's file name with `inspect.stack`. Here the caller's path is a parameter of `Misc.PPrint`.
- RepeaterFraction.SimFractions: the burst-time matrix is a value. The protection `.copy()` gives against modification is therefore automatic, and aliasing is not modelled.
- RepeaterFraction: the setup in tests/chime/sim_rep_frac.py is left out. That covers population generation, unpickling, the S/N mask, the `np.linspace` day grid, tqdm and plotting. `days` is a parameter.
- RepeaterFraction: `calc_rep_frac` fetches the CHIME catalogue over the network and is not part of this model. Its result `dts` is a parameter.
- NullSidelobes: the curve built from the Bessel function `j1` is not modelled, because `j1` is a foreign special function. This includes its NaN at x = 0. `y` is an arbitrary sequence of reals. Printing and plotting are left out.
- The remaining scripts are not part of this model: the beam, DM/SNR and rate-generation tests, and the rest of tests/lognlogs/abc.py and tests/chime.
