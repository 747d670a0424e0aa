/** Turning a per-cell vector into one colour channel (GServer.py `getVmax`
    and the channel branches of `getCellColorByFeatures`). Values are exact
    reals; a division by a zero `vmax` follows IEEE float rules: a positive
    value becomes +inf, zero becomes NaN, a negative value becomes -inf. */
module Scaling {
  import opened Prelude
  import opened Numeric

  // ------------------------------------------------------------ getVmax

  /** `getVmax`: the 99th percentile; if that is 0 while the maximum is not,
      the maximum; if the result is below 10, the maximum. `np.percentile` of
      an empty vector raises IndexError. */
  function GetVmax(vals: seq<real>): (r: Result<real>)
    ensures r.Err? <==> vals == []
    ensures r.Err? ==> r.error == IndexError
    ensures r.Ok? ==> r.value <= Max(vals)
    ensures r.Ok? ==> r.value >= 10.0 || r.value == Max(vals)
  {
    if vals == [] then Err(IndexError)
    else
      var p := Percentile99(vals);
      var m := Max(vals);
      var v := if p == 0.0 && m != 0.0 then m else p;
      Ok(if v < 10.0 then m else v)
  }

  /** The three steps collapse to one choice: the percentile when it is at
      least 10, otherwise the maximum. */
  lemma GetVmaxFallback(vals: seq<real>)
    requires vals != []
    ensures GetVmax(vals) == Ok(if Percentile99(vals) >= 10.0 then Percentile99(vals) else Max(vals))
  {
  }

  predicate NonNegative(vals: seq<real>)
  {
    forall i :: 0 <= i < |vals| ==> vals[i] >= 0.0
  }

  /** For non-negative values the scale is zero exactly when every value is. */
  lemma VmaxZeroIff(vals: seq<real>)
    requires vals != [] && NonNegative(vals)
    ensures GetVmax(vals) == Ok(0.0) <==> forall i :: 0 <= i < |vals| ==> vals[i] == 0.0
  {
    if forall i :: 0 <= i < |vals| ==> vals[i] == 0.0 {
      assert Max(vals) == 0.0;
    }
  }

  // ------------------------------------------------------------ channel values

  /** A channel entry: an integral float, or -inf, which only shows up when a
      negative value is divided by a zero scale (`int(-inf)` raises later). */
  datatype Level = Finite(n: int) | NegInf

  /** `np.round(v / vmax * 255)`, then `x if x <= 255 else 255`. Over a zero
      scale, +inf and NaN both fail `x <= 255` and become 255. */
  function ScaleValue(v: real, vmax: real): (r: Level)
    ensures r.NegInf? <==> vmax == 0.0 && v < 0.0
    ensures vmax == 0.0 && v >= 0.0 ==> r == Finite(255)
    ensures r.Finite? ==> r.n <= 255
    ensures vmax > 0.0 && v >= vmax ==> r == Finite(255)
    ensures vmax != 0.0 && RoundHalfEven(v / vmax * 255.0) <= 255 ==>
      r.Finite? && v / vmax * 255.0 - 0.5 <= r.n as real <= v / vmax * 255.0 + 0.5
  {
    if vmax == 0.0 then (if v < 0.0 then NegInf else Finite(255))
    else
      var x := RoundHalfEven(v / vmax * 255.0);
      assert vmax > 0.0 && v >= vmax ==> v / vmax >= 1.0;
      Finite(if x <= 255 then x else 255)
  }

  /** Values between zero and the scale land in 0..255. */
  lemma ScaleValueInRange(v: real, vmax: real)
    requires 0.0 <= v <= vmax && vmax > 0.0
    ensures ScaleValue(v, vmax).Finite? && 0 <= ScaleValue(v, vmax).n <= 255
  {
    assert v / vmax <= 1.0;
    RoundWithin(v / vmax * 255.0, 0, 255);
  }

  lemma {:induction false} RoundMonotone(x: real, y: real)
    requires x <= y
    ensures RoundHalfEven(x) <= RoundHalfEven(y)
  {
  }

  /** Over a positive scale, a larger value never gets a smaller channel value. */
  lemma ScaleValueMonotone(v: real, w: real, vmax: real)
    requires v <= w && vmax > 0.0
    ensures ScaleValue(v, vmax).Finite? && ScaleValue(w, vmax).Finite?
    ensures ScaleValue(v, vmax).n <= ScaleValue(w, vmax).n
  {
    assert v / vmax <= w / vmax;
    RoundMonotone(v / vmax * 255.0, w / vmax * 255.0);
  }

  // ------------------------------------------------------------ channels

  /** A gene channel: every value scaled. */
  function GeneChannel(vals: seq<real>, vmax: real): (r: seq<Level>)
    ensures |r| == |vals|
    ensures forall i :: 0 <= i < |vals| ==> r[i] == ScaleValue(vals[i], vmax)
  {
    seq(|vals|, i requires 0 <= i < |vals| => ScaleValue(vals[i], vmax))
  }

  /** Gene channel values are never above 255. */
  lemma GeneChannelBounded(vals: seq<real>, vmax: real)
    ensures forall i :: 0 <= i < |vals| && GeneChannel(vals, vmax)[i].Finite? ==> GeneChannel(vals, vmax)[i].n <= 255
  {
  }

  /** With auto-scaling, a vector of zeros is all NaN after the division, and
      every entry saturates to 255. */
  lemma AllZeroSaturates(vals: seq<real>)
    requires vals != [] && forall i :: 0 <= i < |vals| ==> vals[i] == 0.0
    ensures GetVmax(vals) == Ok(0.0)
    ensures forall i :: 0 <= i < |vals| ==> GeneChannel(vals, 0.0)[i] == Finite(255)
  {
    VmaxZeroIff(vals);
  }

  /** `threshold[n]` is read once per value, so an empty vector never reads it. */
  function Threshold(vals: seq<real>, threshold: seq<real>, n: nat): (r: Result<real>)
    ensures r.Err? <==> vals != [] && n >= |threshold|
    ensures r.Err? ==> r.error == IndexError
    ensures r.Ok? && n < |threshold| ==> r.value == threshold[n]
  {
    if n < |threshold| then Ok(threshold[n])
    else if vals == [] then Ok(0.0)
    else Err(IndexError)
  }

  /** A binary regulon channel: 225 where the AUC reaches the threshold, else 0. */
  function BinaryChannel(vals: seq<real>, threshold: seq<real>, n: nat): (r: Result<seq<Level>>)
    ensures r.Err? <==> vals != [] && n >= |threshold|
    ensures r.Err? ==> r.error == IndexError
    ensures r.Ok? ==> |r.value| == |vals|
    ensures r.Ok? ==> forall i :: 0 <= i < |vals| ==> r.value[i] == Finite(225) || r.value[i] == Finite(0)
    ensures r.Ok? ==> forall i :: 0 <= i < |vals| ==> (r.value[i] == Finite(225) <==> vals[i] >= threshold[n])
  {
    match Threshold(vals, threshold, n)
    case Err(e) => Err(e)
    case Ok(t) => Ok(seq(|vals|, i requires 0 <= i < |vals| => if vals[i] >= t then Finite(225) else Finite(0)))
  }

  /** A thresholded regulon channel: values below the threshold zeroed, then
      scaled like a gene channel. */
  function ThresholdedChannel(vals: seq<real>, threshold: seq<real>, n: nat, vmax: real): (r: Result<seq<Level>>)
    ensures r.Err? <==> vals != [] && n >= |threshold|
    ensures r.Err? ==> r.error == IndexError
    ensures r.Ok? ==> |r.value| == |vals|
    ensures r.Ok? ==> forall i :: 0 <= i < |vals| && vals[i] < threshold[n] ==> r.value[i] == ScaleValue(0.0, vmax)
    ensures r.Ok? ==> forall i :: 0 <= i < |vals| && vals[i] < threshold[n] && vmax != 0.0 ==> r.value[i] == Finite(0)
    ensures r.Ok? ==> forall i :: 0 <= i < |vals| && vals[i] >= threshold[n] ==> r.value[i] == ScaleValue(vals[i], vmax)
  {
    match Threshold(vals, threshold, n)
    case Err(e) => Err(e)
    case Ok(t) =>
      var kept := seq(|vals|, i requires 0 <= i < |vals| => if vals[i] >= t then vals[i] else 0.0);
      Ok(GeneChannel(kept, vmax))
  }

  /** Lines 255-256 as written: the comprehension builds a Python list, and a
      list divided by a Python float (the request's own `vmax`) raises
      TypeError. A scale from `getVmax` is a numpy float, whose reflected
      division turns the list into an array, so that path computes the channel. */
  function ThresholdedChannelAsWritten(vals: seq<real>, threshold: seq<real>, n: nat, vmax: real, vmaxFromRequest: bool)
    : (r: Result<seq<Level>>)
    ensures vals != [] && n >= |threshold| ==> r == Err(IndexError)
    ensures !(vals != [] && n >= |threshold|) && vmaxFromRequest ==> r == Err(TypeError)
    ensures !vmaxFromRequest ==> r == ThresholdedChannel(vals, threshold, n, vmax)
  {
    match Threshold(vals, threshold, n)
    case Err(e) => Err(e)
    case Ok(_) => if vmaxFromRequest then Err(TypeError) else ThresholdedChannel(vals, threshold, n, vmax)
  }

  /** Every thresholded-mode request with an explicit scale fails as written,
      while the intended channel exists. */
  lemma ThresholdedWithRequestVmaxFails(vals: seq<real>, threshold: seq<real>, n: nat, vmax: real)
    requires n < |threshold|
    ensures ThresholdedChannelAsWritten(vals, threshold, n, vmax, true) == Err(TypeError)
    ensures ThresholdedChannel(vals, threshold, n, vmax).Ok?
  {
  }

  /** A cluster-mask channel: 225 where the cell's cluster is `clusterID`, else 0. */
  function ClusterMask(column: seq<int>, clusterID: int): (r: seq<Level>)
    ensures |r| == |column|
    ensures forall i :: 0 <= i < |column| ==> r[i] == Finite(225) || r[i] == Finite(0)
    ensures forall i :: 0 <= i < |column| ==> (r[i] == Finite(225) <==> column[i] == clusterID)
  {
    seq(|column|, i requires 0 <= i < |column| => if column[i] == clusterID then Finite(225) else Finite(0))
  }

  /** `np.zeros(n_cells)`: the channel of an empty feature name. */
  function Zeros(nCells: nat): (r: seq<Level>)
    ensures |r| == nCells && forall i :: 0 <= i < nCells ==> r[i] == Finite(0)
  {
    seq(nCells, _ => Finite(0))
  }

  lemma MaxExample()
    ensures Max([0.0, 2.0, 6.0]) == 6.0
  {
    assert [0.0, 2.0, 6.0][1..] == [2.0, 6.0];
    assert [2.0, 6.0][1..] == [6.0];
  }

  lemma PercentileExample()
    ensures Percentile99([0.0, 2.0, 6.0]) == 5.92
  {
    var v := [0.0, 2.0, 6.0];
    assert Sorted(v);
    SortOfSorted(v);
    assert 0.99 * (|Sort(v)| - 1) as real == 1.98;
    InterpolateExample();
  }

  lemma InterpolateExample()
    ensures Interpolate([0.0, 2.0, 6.0], 1.98) == 5.92
  {
    assert (1.98).Floor == 1;
  }

  /** Values 0, 2 and 6 scale by their maximum 6 (the percentile, 5.92, is
      below 10) to 0, 85 and 255. */
  lemma ScaleExample()
    ensures GetVmax([0.0, 2.0, 6.0]) == Ok(6.0)
    ensures GeneChannel([0.0, 2.0, 6.0], 6.0) == [Finite(0), Finite(85), Finite(255)]
  {
    PercentileExample();
    MaxExample();
    ChannelExample();
  }

  lemma ChannelExample()
    ensures GeneChannel([0.0, 2.0, 6.0], 6.0) == [Finite(0), Finite(85), Finite(255)]
  {
    var c := GeneChannel([0.0, 2.0, 6.0], 6.0);
    ScaleValueExample();
    assert |c| == 3 && c[0] == Finite(0) && c[1] == Finite(85) && c[2] == Finite(255);
  }

  lemma ScaleValueExample()
    ensures ScaleValue(0.0, 6.0) == Finite(0)
    ensures ScaleValue(2.0, 6.0) == Finite(85)
    ensures ScaleValue(6.0, 6.0) == Finite(255)
  {
    assert 2.0 / 6.0 * 255.0 == 85.0;
    assert RoundHalfEven(85.0) == 85;
    assert RoundHalfEven(0.0) == 0;
    assert RoundHalfEven(255.0) == 255;
  }
}
