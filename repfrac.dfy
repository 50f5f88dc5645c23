/** The repeater fraction as it grows with survey time
    (tests/chime/sim_rep_frac.py).

    For each day, every source is classed by how many of its bursts have
    happened by that day: more than one makes it a repeater, exactly one a
    one-off. The fraction of repeaters among the sources seen is recorded
    day by day, for a simulated population and for the CHIME catalogue. */
module RepeaterFraction {
  import opened Wrappers
  import opened Numbers

  /** `n_rep / (n_rep + n_one_offs)`; `None` is the NaN of 0/0. */
  function Fraction(nRep: nat, nOne: nat): (r: Option<real>)
    ensures r.None? <==> nRep + nOne == 0
    ensures r.Some? ==> 0.0 <= r.value <= 1.0
    ensures r.Some? ==> r.value * ((nRep + nOne) as real) == nRep as real
  {
    if nRep + nOne == 0 then None
    else
      var total := (nRep + nOne) as real;
      var f := (nRep as real) / total;
      DivMulCancel(nRep as real, total);
      Fraction01(nRep as real, total);
      Some(f)
  }

  lemma Fraction01(part: real, total: real)
    requires 0.0 <= part <= total && total > 0.0
    ensures 0.0 <= part / total <= 1.0
  {
    assert part / total * total == part;
  }

  /** `t < day` on the burst-time matrix: a NaN (no burst) is never before
      any day. */
  predicate Before(t: Float, day: real)
  {
    match t
    case Finite(v) => v < day
    case NegInf => true
    case _ => false
  }

  /** How many of one source's burst times are before `day`: the row sum of
      `~np.isnan(np.where(t < day, t, np.nan))`. */
  function Seen(row: seq<Float>, day: real): (r: nat)
    ensures r <= |row|
  {
    if row == [] then 0
    else (if Before(row[0], day) then 1 else 0) + Seen(row[1..], day)
  }

  /** A time that is not before the day, NaN above all, adds nothing. */
  lemma {:induction false} SeenSkips(row: seq<Float>, t: Float, day: real)
    requires !Before(t, day)
    ensures Seen(row + [t], day) == Seen(row, day)
  {
    if row != [] {
      assert (row + [t])[1..] == row[1..] + [t];
      SeenSkips(row[1..], t, day);
    } else {
      assert [t][1..] == [];
    }
  }

  /** A later day sees at least as many bursts. */
  lemma {:induction false} SeenMonotone(row: seq<Float>, d1: real, d2: real)
    requires d1 <= d2
    ensures Seen(row, d1) <= Seen(row, d2)
  {
    if row != [] {
      SeenMonotone(row[1..], d1, d2);
    }
  }

  /** Number of sources with more than one burst before `day`. */
  function Repeaters(times: seq<seq<Float>>, day: real): (r: nat)
    ensures r <= |times|
  {
    if times == [] then 0
    else (if Seen(times[0], day) > 1 then 1 else 0) + Repeaters(times[1..], day)
  }

  /** Number of sources with exactly one burst before `day`. */
  function OneOffs(times: seq<seq<Float>>, day: real): (r: nat)
    ensures r <= |times|
  {
    if times == [] then 0
    else (if Seen(times[0], day) == 1 then 1 else 0) + OneOffs(times[1..], day)
  }

  /** Number of sources with at least one burst before `day`. */
  function Detected(times: seq<seq<Float>>, day: real): nat
  {
    if times == [] then 0
    else (if Seen(times[0], day) >= 1 then 1 else 0) + Detected(times[1..], day)
  }

  /** No source is both: the two classes split the detected sources, so
      together they never exceed the number of sources. */
  lemma {:induction false} ClassesPartition(times: seq<seq<Float>>, day: real)
    ensures Repeaters(times, day) + OneOffs(times, day) == Detected(times, day)
    ensures Detected(times, day) <= |times|
  {
    if times != [] {
      ClassesPartition(times[1..], day);
    }
  }

  /** Repeaters and detected sources only accumulate as the day advances. */
  lemma {:induction false} ClassesMonotone(times: seq<seq<Float>>, d1: real, d2: real)
    requires d1 <= d2
    ensures Repeaters(times, d1) <= Repeaters(times, d2)
    ensures Detected(times, d1) <= Detected(times, d2)
  {
    if times != [] {
      SeenMonotone(times[0], d1, d2);
      ClassesMonotone(times[1..], d1, d2);
    }
  }

  /** The simulated fraction on one day. */
  function SimFraction(times: seq<seq<Float>>, day: real): (r: Option<real>)
    ensures r.None? <==> Repeaters(times, day) + OneOffs(times, day) == 0
    ensures r.Some? ==> r.value * ((Repeaters(times, day) + OneOffs(times, day)) as real) == Repeaters(times, day) as real
  {
    Fraction(Repeaters(times, day), OneOffs(times, day))
  }

  /** The fraction is defined exactly when some source has been seen, and is
      then a proportion. */
  lemma SimFractionDefined(times: seq<seq<Float>>, day: real)
    ensures SimFraction(times, day).None? <==> Detected(times, day) == 0
    ensures SimFraction(times, day).Some? ==> 0.0 <= SimFraction(times, day).value <= 1.0
  {
    ClassesPartition(times, day);
  }

  /** The loop over `days` (lines 70-76): one fraction per day, in order.
      `times` is a value, so the population's burst times stay as they
      were. */
  method SimFractions(times: seq<seq<Float>>, days: seq<real>) returns (fracs: seq<Option<real>>)
    ensures |fracs| == |days|
    ensures forall i :: 0 <= i < |days| ==> fracs[i] == SimFraction(times, days[i])
  {
    fracs := [];
    for i := 0 to |days|
      invariant |fracs| == i
      invariant forall k :: 0 <= k < i ==> fracs[k] == SimFraction(times, days[k])
    {
      var day := days[i];
      var nRep := Repeaters(times, day);
      var nOneOffs := OneOffs(times, day);
      fracs := fracs + [Fraction(nRep, nOneOffs)];
    }
  }

  /** `range(301)`: the CHIME days 0 through 300. */
  const ChimeDays := 301

  /** `sum([dt <= day for dt in dts])`: catalogue repeaters whose second
      burst came by `day` (inclusive). */
  function ChimeRepeaters(dts: seq<real>, day: int): (r: nat)
    ensures r <= |dts|
  {
    if dts == [] then 0
    else (if dts[0] <= day as real then 1 else 0) + ChimeRepeaters(dts[1..], day)
  }

  /** One-offs are assumed to arrive at two per day. */
  function ChimeOneOffs(day: nat): (r: nat)
    ensures r == 0 <==> day == 0
    ensures r >= day
  {
    2 * day
  }

  /** `n_rep / (n_rep + n_one_offs)` on CHIME day `day`. */
  function ChimeFraction(dts: seq<real>, day: nat): (r: Option<real>)
    ensures r.Some? ==> 0.0 <= r.value <= 1.0
    ensures day > 0 ==> r.Some?
  {
    Fraction(ChimeRepeaters(dts, day), ChimeOneOffs(day))
  }

  /** The ZeroDivisionError, caught as NaN, happens only on day 0 with no
      repeater yet; on day 0 with one the fraction is 1. */
  lemma ChimeFractionCases(dts: seq<real>, day: nat)
    ensures ChimeFraction(dts, day).None? <==> day == 0 && ChimeRepeaters(dts, 0) == 0
    ensures day == 0 && ChimeRepeaters(dts, 0) > 0 ==> ChimeFraction(dts, day) == Some(1.0)
  {
    if day == 0 && ChimeRepeaters(dts, 0) > 0 {
      var n := ChimeRepeaters(dts, 0) as real;
      UnitQuotient(n);
    }
  }

  lemma {:induction false} ChimeRepeatersMonotone(dts: seq<real>, d1: int, d2: int)
    requires d1 <= d2
    ensures ChimeRepeaters(dts, d1) <= ChimeRepeaters(dts, d2)
  {
    if dts != [] {
      ChimeRepeatersMonotone(dts[1..], d1, d2);
    }
  }

  /** The loop over the CHIME days (lines 86-94): 301 entries, entry `d`
      being the fraction on day `d`. */
  method ChimeFractions(dts: seq<real>) returns (chimeFracs: seq<Option<real>>)
    ensures |chimeFracs| == ChimeDays
    ensures forall d :: 0 <= d < ChimeDays ==> chimeFracs[d] == ChimeFraction(dts, d)
  {
    chimeFracs := [];
    for day := 0 to ChimeDays
      invariant |chimeFracs| == day
      invariant forall d :: 0 <= d < day ==> chimeFracs[d] == ChimeFraction(dts, d)
    {
      var nRep := ChimeRepeaters(dts, day);
      var nOneOffs := ChimeOneOffs(day);
      var frac: Option<real>;
      if nRep + nOneOffs == 0 {
        frac := None;
      } else {
        frac := Some((nRep as real) / ((nRep + nOneOffs) as real));
      }
      chimeFracs := chimeFracs + [frac];
    }
  }
}
