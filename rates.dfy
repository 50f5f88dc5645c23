/** Rate counters of a survey and their area scaling (frbpoppy/rates.py).

    A `Tally` is the value a counter holds at one moment; the class `Rates`
    is the mutable record the simulation fills in, and `Scale` produces a new,
    independent counter from an existing one. */
module Rates {
  import opened Wrappers

  /** The fields of a rate counter. Counts are reals because scaling turns
      them into fractional numbers. */
  datatype Tally = Tally(
    det: real,        // detected
    faint: real,      // too faint to detect
    late: real,       // too late to detect
    out: real,        // outside the survey, in space or time
    vol: real,        // number per Gpc^3
    days: real,       // days of the survey
    name: string,     // survey name
    fArea: real,      // area scaling factor
    fTime: real,      // time scaling factor
    scaledArea: bool,
    scaledTime: bool)
  {
    /** All candidate events: the four sub-tallies together. */
    function Tot(): real
    {
      det + out + faint + late
    }

    /** Days before an FRB is detected; `None` is the NaN returned when
        nothing was detected (the division by zero is caught). */
    function Exp(): (r: Option<real>)
      ensures r.None? <==> det == 0.0
      ensures r.Some? ==> r.value * det == days
    {
      if det == 0.0 then None else Some(days / det)
    }
  }

  /** What a freshly constructed counter holds. */
  const Empty := Tally(0.0, 0.0, 0.0, 0.0, 0.0, 0.0, "", 1.0, 1.0, false, false)

  function Abs(x: real): (r: real)
    ensures r >= 0.0
  {
    if x < 0.0 then -x else x
  }

  /** The signed difference between the total before scaling and the three
      scaled sub-tallies; `scale` stores its absolute value as `out`. */
  function Residual(t: Tally): real
  {
    t.Tot() - t.det * t.fArea - t.faint * t.fArea - t.late * t.fArea
  }

  /** The value `scale(rates, area)` returns for a counter holding `t`. */
  function Scaled(t: Tally, area: bool): (r: Tally)
    ensures !area ==> r == t
    ensures area ==> r.scaledArea && r.out == Abs(Residual(t))
    ensures area ==> r.det == t.det * t.fArea && r.late == t.late * t.fArea && r.faint == t.faint * t.fArea
    ensures r.vol == t.vol && r.days == t.days && r.name == t.name
    ensures r.fArea == t.fArea && r.fTime == t.fTime && r.scaledTime == t.scaledTime
  {
    if !area then t
    else
      t.(scaledArea := true, det := t.det * t.fArea, late := t.late * t.fArea,
         faint := t.faint * t.fArea, out := Abs(Residual(t)))
  }

  /** A fresh counter totals nothing and expects NaN days per detection. */
  lemma EmptyHasNoEvents()
    ensures Empty.Tot() == 0.0 && Empty.Exp() == None
  {
  }

  /** Area scaling never leaves a negative `out`. */
  lemma ScaledOutNonNegative(t: Tally, area: bool)
    requires area || t.out >= 0.0
    ensures Scaled(t, area).out >= 0.0
  {
  }

  /** Scaling keeps the total exactly when the residual is not negative;
      otherwise the absolute value absorbs a sign inversion and the total
      grows. */
  lemma ScaledTotalPreservedIff(t: Tally)
    ensures Scaled(t, true).Tot() == t.Tot() <==> Residual(t) >= 0.0
    ensures Residual(t) < 0.0 ==> Scaled(t, true).Tot() > t.Tot()
  {
    var r := Scaled(t, true);
    assert r.Tot() == t.Tot() - Residual(t) + Abs(Residual(t));
  }

  /** There is no guard on `scaledArea`: scaling twice multiplies the three
      sub-tallies by the square of the factor. */
  lemma ScaleTwiceCompounds(t: Tally)
    ensures Scaled(Scaled(t, true), true).det == t.det * (t.fArea * t.fArea)
    ensures Scaled(Scaled(t, true), true).late == t.late * (t.fArea * t.fArea)
    ensures Scaled(Scaled(t, true), true).faint == t.faint * (t.fArea * t.fArea)
  {
    ScaleTwiceDet(t);
    ScaleTwiceLate(t);
    ScaleTwiceFaint(t);
  }

  lemma ScaleTwiceDet(t: Tally)
    ensures Scaled(Scaled(t, true), true).det == t.det * (t.fArea * t.fArea)
  {
    assert Scaled(Scaled(t, true), true).det == (t.det * t.fArea) * t.fArea;
    MulAssoc(t.det, t.fArea);
  }

  lemma ScaleTwiceLate(t: Tally)
    ensures Scaled(Scaled(t, true), true).late == t.late * (t.fArea * t.fArea)
  {
    assert Scaled(Scaled(t, true), true).late == (t.late * t.fArea) * t.fArea;
    MulAssoc(t.late, t.fArea);
  }

  lemma ScaleTwiceFaint(t: Tally)
    ensures Scaled(Scaled(t, true), true).faint == t.faint * (t.fArea * t.fArea)
  {
    assert Scaled(Scaled(t, true), true).faint == (t.faint * t.fArea) * t.fArea;
    MulAssoc(t.faint, t.fArea);
  }

  lemma MulAssoc(x: real, f: real)
    ensures (x * f) * f == x * (f * f)
  {
  }

  /** Hence scaling is not idempotent: with a factor other than 0 and 1 and
      something detected, a second scaling changes `det` again. */
  lemma ScaleNotIdempotent(t: Tally)
    requires t.det != 0.0 && t.fArea != 0.0 && t.fArea != 1.0
    ensures Scaled(Scaled(t, true), true).det != Scaled(t, true).det
  {
    ScaleTwiceCompounds(t);
    var d := t.det * t.fArea;
    assert d != 0.0;
    assert Scaled(t, true).det == d;
    assert Scaled(Scaled(t, true), true).det == d * t.fArea;
  }

  /** A counter with ten detections and an area factor of two scales to
      twenty detections, and the residual ten is reported as outside. */
  lemma ScaleTenDetections()
    ensures var r := Scaled(Empty.(det := 10.0, fArea := 2.0), true);
            r.det == 20.0 && r.late == 0.0 && r.faint == 0.0 && r.out == 10.0 && r.scaledArea
  {
  }

  /** The mutable rate counter. */
  class Rates {
    var det: real
    var faint: real
    var late: real
    var out: real
    var vol: real
    var days: real
    var name: string
    var fArea: real
    var fTime: real
    var scaledArea: bool
    var scaledTime: bool

    /** The value the counter currently holds. */
    function Value(): Tally
      reads this
    {
      Tally(det, faint, late, out, vol, days, name, fArea, fTime, scaledArea, scaledTime)
    }

    constructor ()
      ensures Value() == Empty
    {
      det, faint, late, out := 0.0, 0.0, 0.0, 0.0;
      vol, days, name := 0.0, 0.0, "";
      fArea, fTime := 1.0, 1.0;
      scaledArea, scaledTime := false, false;
    }

    /** `tot()`: the total of the counter's current value. */
    function Tot(): (r: real)
      reads this
      ensures r == Value().Tot()
    {
      Value().Tot()
    }

    /** `exp`: NaN (`None`) while nothing is detected. */
    function Exp(): (r: Option<real>)
      reads this
      ensures r.None? <==> det == 0.0
      ensures r.Some? ==> r.value * det == days
    {
      Value().Exp()
    }
  }

  /** `copy.deepcopy` of a counter: a new object with the same value. */
  method DeepCopy(rates: Rates) returns (c: Rates)
    ensures fresh(c) && c.Value() == rates.Value()
  {
    c := new Rates();
    c.det, c.faint, c.late, c.out := rates.det, rates.faint, rates.late, rates.out;
    c.vol, c.days, c.name := rates.vol, rates.days, rates.name;
    c.fArea, c.fTime := rates.fArea, rates.fTime;
    c.scaledArea, c.scaledTime := rates.scaledArea, rates.scaledTime;
  }

  /** `scale(rates, area)`: works on a deep copy, so the argument is never
      modified, and returns that copy with area scaling applied. */
  method Scale(rates: Rates, area: bool) returns (r: Rates)
    ensures fresh(r) && unchanged(rates)
    ensures r.Value() == Scaled(rates.Value(), area)
  {
    r := DeepCopy(rates);
    ghost var t := rates.Value();
    if area {
      r.scaledArea := true;
      var tot := r.Tot();
      // the three `*=` updates are independent of one another
      r.det, r.late, r.faint := r.det * r.fArea, r.late * r.fArea, r.faint * r.fArea;
      assert tot - r.det - r.faint - r.late == Residual(t);
      r.out := Abs(tot - r.det - r.faint - r.late);
    }
  }
}
