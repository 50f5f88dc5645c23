/** The null points of a sampled curve (tests/calc_null_sidelobes.py): the
    interior samples where the curve stops falling and starts rising, found
    from the change in sign of consecutive differences. The curve `y` and
    its abscissae `x` are inputs; how they are generated is not modelled. */
module NullSidelobes {

  /** `np.sign` on a float: -1.0, 0.0 or 1.0, itself a float. */
  function Sign(v: real): (r: real)
    ensures r == -1.0 || r == 0.0 || r == 1.0
    ensures r < 0.0 <==> v < 0.0
    ensures r > 0.0 <==> v > 0.0
  {
    if v < 0.0 then -1.0 else if v > 0.0 then 1.0 else 0.0
  }

  /** `np.diff`: differences of neighbours, one fewer than the input (none
      for an empty or one-element input). */
  function Diff(s: seq<real>): (r: seq<real>)
    ensures |r| == if |s| == 0 then 0 else |s| - 1
    ensures forall k :: 0 <= k < |r| ==> r[k] == s[k + 1] - s[k]
  {
    if |s| <= 1 then [] else seq(|s| - 1, k requires 0 <= k < |s| - 1 => s[k + 1] - s[k])
  }

  function Signs(s: seq<real>): (r: seq<real>)
    ensures |r| == |s|
    ensures forall k :: 0 <= k < |s| ==> r[k] == Sign(s[k])
  {
    seq(|s|, k requires 0 <= k < |s| => Sign(s[k]))
  }

  /** `ind = np.diff(np.sign(np.diff(y)))`: entry k belongs to sample k + 1,
      and is the rise in sign of the difference across that sample. */
  function Turns(y: seq<real>): (r: seq<real>)
    ensures |r| == if |y| < 2 then 0 else |y| - 2
  {
    Diff(Signs(Diff(y)))
  }

  /** Entry k of `ind` is the rise in sign across sample k + 1, between -2
      and 2. */
  lemma TurnsEntries(y: seq<real>)
    ensures forall k :: 0 <= k < |Turns(y)| ==>
              Turns(y)[k] == Sign(y[k + 2] - y[k + 1]) - Sign(y[k + 1] - y[k])
    ensures forall k :: 0 <= k < |Turns(y)| ==> -2.0 <= Turns(y)[k] <= 2.0
  {
  }

  /** `s[1:-1]`: everything but the first and last sample. */
  function Interior<T>(s: seq<T>): (r: seq<T>)
    ensures |r| == if |s| < 2 then 0 else |s| - 2
    ensures forall k :: 0 <= k < |r| ==> r[k] == s[k + 1]
  {
    if |s| < 2 then [] else s[1..|s| - 1]
  }

  /** Boolean-mask selection `vals[mask > 0]`. */
  function Select<T>(vals: seq<T>, mask: seq<real>): (r: seq<T>)
    requires |vals| == |mask|
    ensures |r| <= |vals|
  {
    if mask == [] then []
    else (if mask[0] > 0.0 then [vals[0]] else []) + Select(vals[1..], mask[1..])
  }

  /** The positions, counted from `offset`, at which the mask is positive. */
  function Positions(mask: seq<real>, offset: int): (r: seq<int>)
  {
    if mask == [] then []
    else (if mask[0] > 0.0 then [offset] else []) + Positions(mask[1..], offset + 1)
  }

  lemma {:induction false} PositionsLength(mask: seq<real>, offset: int)
    ensures |Positions(mask, offset)| <= |mask|
  {
    if mask != [] {
      PositionsLength(mask[1..], offset + 1);
    }
  }

  /** The positions are ascending, lie within the mask and are exactly the
      positive entries. */
  lemma {:induction false} PositionsSpec(mask: seq<real>, offset: int)
    ensures forall j :: 0 <= j < |Positions(mask, offset)| ==>
              offset <= Positions(mask, offset)[j] < offset + |mask|
    ensures forall j, l :: 0 <= j < l < |Positions(mask, offset)| ==>
              Positions(mask, offset)[j] < Positions(mask, offset)[l]
    ensures forall p :: p in Positions(mask, offset) <==>
              offset <= p < offset + |mask| && mask[p - offset] > 0.0
  {
    if mask != [] {
      PositionsSpec(mask[1..], offset + 1);
      var head: seq<int> := if mask[0] > 0.0 then [offset] else [];
      var tail := Positions(mask[1..], offset + 1);
      assert Positions(mask, offset) == head + tail;
      forall p
        ensures p in Positions(mask, offset) <==> offset <= p < offset + |mask| && mask[p - offset] > 0.0
      {
        if offset + 1 <= p < offset + |mask| {
          assert mask[1..][p - (offset + 1)] == mask[p - offset];
        }
      }
    }
  }

  /** Selecting by the mask picks the values at the mask's positions. */
  lemma {:induction false} SelectAtPositions<T>(vals: seq<T>, mask: seq<real>, offset: int)
    requires |vals| == |mask|
    ensures |Select(vals, mask)| == |Positions(mask, offset)|
    ensures forall j :: 0 <= j < |Select(vals, mask)| ==>
              0 <= Positions(mask, offset)[j] - offset < |vals| &&
              Select(vals, mask)[j] == vals[Positions(mask, offset)[j] - offset]
  {
    PositionsSpec(mask, offset);
    if mask != [] {
      SelectAtPositions(vals[1..], mask[1..], offset + 1);
      PositionsSpec(mask[1..], offset + 1);
    }
  }

  /** The indices of the null points of `y`. */
  function NullIndices(y: seq<real>): (r: seq<int>)
    ensures |r| <= |Interior(y)|
  {
    PositionsLength(Turns(y), 1);
    Positions(Turns(y), 1)
  }

  /** `x_null = x[1:-1][ind > 0]`. */
  function XNull(x: seq<real>, y: seq<real>): (r: seq<real>)
    requires |x| == |y|
    ensures |r| == |NullIndices(y)|
  {
    SelectAtNulls(x, y);
    Select(Interior(x), Turns(y))
  }

  /** `y_null = y[1:-1][ind > 0]`. */
  function YNull(y: seq<real>): (r: seq<real>)
    ensures |r| == |NullIndices(y)|
  {
    SelectAtNulls(y, y);
    Select(Interior(y), Turns(y))
  }

  lemma TurnsLength(y: seq<real>)
    ensures |Turns(y)| == |Interior(y)|
  {
  }

  /** Index i is a null point exactly when it is interior and the sign of
      the difference rises across it. The first and last samples never
      are. */
  lemma NullIndexIff(y: seq<real>, i: int)
    ensures i in NullIndices(y) <==>
              1 <= i <= |y| - 2 && Sign(y[i] - y[i - 1]) < Sign(y[i + 1] - y[i])
  {
    PositionsSpec(Turns(y), 1);
    TurnsLength(y);
  }

  /** In terms of the samples: a null point is no higher than either
      neighbour and not level with both. */
  lemma NullIsLocalMinimum(y: seq<real>, i: int)
    ensures i in NullIndices(y) <==>
              && 1 <= i <= |y| - 2
              && y[i] <= y[i - 1] && y[i] <= y[i + 1]
              && !(y[i] == y[i - 1] && y[i] == y[i + 1])
  {
    NullIndexIff(y, i);
  }

  /** The indices appear in ascending order and none is an endpoint. */
  lemma NullIndicesOrdered(y: seq<real>)
    ensures forall j, l :: 0 <= j < l < |NullIndices(y)| ==> NullIndices(y)[j] < NullIndices(y)[l]
    ensures forall j :: 0 <= j < |NullIndices(y)| ==> 1 <= NullIndices(y)[j] <= |y| - 2
  {
    PositionsSpec(Turns(y), 1);
    TurnsLength(y);
  }

  /** Selecting the interior of any sequence as long as `y` by `ind > 0`
      picks its entries at the null indices of `y`. */
  lemma SelectAtNulls(vals: seq<real>, y: seq<real>)
    requires |vals| == |y|
    ensures |Select(Interior(vals), Turns(y))| == |NullIndices(y)|
    ensures forall j :: 0 <= j < |NullIndices(y)| ==>
              0 <= NullIndices(y)[j] < |y| &&
              Select(Interior(vals), Turns(y))[j] == vals[NullIndices(y)[j]]
  {
    var inner, mask := Interior(vals), Turns(y);
    TurnsLength(y);
    SelectAtPositions(inner, mask, 1);
    var sel, idx := Select(inner, mask), NullIndices(y);
    forall j | 0 <= j < |idx|
      ensures 0 <= idx[j] < |y| && sel[j] == vals[idx[j]]
    {
      var k := idx[j] - 1;
      assert 0 <= k < |inner| && sel[j] == inner[k];
      assert inner[k] == vals[k + 1];
    }
  }

  /** `x_null` and `y_null` have one entry per null index, taken from the
      same sample. */
  lemma NullsPaired(x: seq<real>, y: seq<real>)
    requires |x| == |y|
    ensures |XNull(x, y)| == |YNull(y)| == |NullIndices(y)|
    ensures forall j :: 0 <= j < |NullIndices(y)| ==>
              0 <= NullIndices(y)[j] < |y| &&
              XNull(x, y)[j] == x[NullIndices(y)[j]] && YNull(y)[j] == y[NullIndices(y)[j]]
  {
    SelectAtNulls(x, y);
    SelectAtNulls(y, y);
  }
}
