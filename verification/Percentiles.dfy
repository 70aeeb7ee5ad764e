/** `Estimates::percentile`, for plain numbers and for durations, against interpolation. */
module Percentiles {
  import opened Wrappers
  import opened Curves
  import opened Distance

  const NANOS: real := 1000000000.0

  /** The first knot whose percentile is within EPSILON of `p`. */
  function Near(c: Curve, p: real, i: nat): (r: Option<nat>)
    ensures r.Some? ==>
              && i <= r.value < |c| && Abs(c[r.value].p - p) < EPSILON
              && forall k :: i <= k < r.value ==> Abs(c[k].p - p) >= EPSILON
    ensures r.None? ==> forall k :: i <= k < |c| ==> Abs(c[k].p - p) >= EPSILON
    decreases |c| - i
  {
    if i >= |c| then None
    else if Abs(c[i].p - p) < EPSILON then Some(i)
    else Near(c, p, i + 1)
  }

  /** The point of a segment, with the interpolation factor computed first. */
  function ByFactor(a: Knot, b: Knot, p: real): real
    requires a.p < b.p
  {
    var factor := (p - a.p) / (b.p - a.p);
    a.v + (b.v - a.v) * factor
  }

  function FactorScan(c: Curve, p: real, i: nat): Option<real>
    requires Increasing(c)
    decreases |c| - i
  {
    if i + 1 >= |c| then None
    else if c[i].p <= p && p <= c[i + 1].p then Some(ByFactor(c[i], c[i + 1], p))
    else FactorScan(c, p, i + 1)
  }

  /** `percentile` for a distribution of numbers. */
  function Percentile(c: Curve, p: real): Option<real>
    requires Increasing(c)
  {
    match Near(c, p, 0)
    case Some(k) => Some(c[k].v)
    case None =>
      if c == [] then None
      else if p <= c[0].p then Some(c[0].v)
      else if p >= c[|c| - 1].p then Some(c[|c| - 1].v)
      else FactorScan(c, p, 0)
  }

  lemma FactorIsLine(a: Knot, b: Knot, p: real)
    requires a.p < b.p
    ensures ByFactor(a, b, p) == Line(a, b, p)
  {
    var d, q, w := b.v - a.v, p - a.p, b.p - a.p;
    var f := q / w;
    assert q == f * w;
    assert d * q == (d * f) * w;
    Cancel(d * f, w);
  }

  lemma {:induction false} FactorScanIsScan(c: Curve, p: real, i: nat, k: nat)
    requires Increasing(c) && i <= k && k + 1 < |c| && c[k].p <= p <= c[k + 1].p
    ensures FactorScan(c, p, i) == Some(Scan(c, p, i))
    decreases k - i
  {
    if c[i].p <= p <= c[i + 1].p {
      FactorIsLine(c[i], c[i + 1], p);
    } else {
      FactorScanIsScan(c, p, i + 1, k);
    }
  }

  /** The value exists exactly for a non-empty curve, and is the interpolated value at `p`, or at
      the first knot within EPSILON of `p` when there is one. */
  lemma PercentileInterpolates(c: Curve, p: real)
    requires Increasing(c)
    ensures Percentile(c, p) ==
            if c == [] then None
            else match Near(c, p, 0)
                 case Some(k) => Some(Interpolate(c, c[k].p))
                 case None => Some(Interpolate(c, p))
  {
    match Near(c, p, 0)
    case Some(k) => AtKnot(c, k);
    case None =>
      if c != [] && c[0].p < p < c[|c| - 1].p {
        var k := NeverFallsThrough(c, p);
        FactorScanIsScan(c, p, 0, k);
      }
  }

  // ---------------------------------------------------------------- durations

  datatype NanoKnot = NanoKnot(p: real, nanos: nat)

  /** The curve in seconds, as the program converts it. */
  function Seconds(q: seq<NanoKnot>): (c: Curve)
    ensures |c| == |q| && forall i :: 0 <= i < |q| ==> c[i] == Knot(q[i].p, q[i].nanos as real / NANOS)
  {
    seq(|q|, i requires 0 <= i < |q| => Knot(q[i].p, q[i].nanos as real / NANOS))
  }

  /** The curve in nanoseconds. */
  function Nanos(q: seq<NanoKnot>): (c: Curve)
    ensures |c| == |q| && forall i :: 0 <= i < |q| ==> c[i] == Knot(q[i].p, q[i].nanos as real)
  {
    seq(|q|, i requires 0 <= i < |q| => Knot(q[i].p, q[i].nanos as real))
  }

  /** The cast `x as u64` of a number that is not too large. */
  function Truncate(x: real): nat {
    if x < 0.0 then 0 else x.Floor
  }

  /** `percentile` for a distribution of durations, in nanoseconds. */
  function DurationPercentile(q: seq<NanoKnot>, p: real): Option<nat>
    requires Increasing(Seconds(q))
  {
    var c := Seconds(q);
    match Near(c, p, 0)
    case Some(k) => Some(q[k].nanos)
    case None =>
      if q == [] then None
      else if p <= c[0].p then Some(q[0].nanos)
      else if p >= c[|c| - 1].p then Some(q[|q| - 1].nanos)
      else
        match FactorScan(c, p, 0)
        case None => None
        case Some(interpolated) => Some(Truncate(interpolated * NANOS))
  }

  lemma LineScaled(a: Knot, b: Knot, p: real, u: real)
    requires a.p < b.p && u != 0.0
    ensures Line(Knot(a.p, a.v / u), Knot(b.p, b.v / u), p) * u == Line(a, b, p)
  {
    var w, q := b.p - a.p, p - a.p;
    Slope(b.v - a.v, q, w);
    Slope(b.v / u - a.v / u, q, w);
    var s, t := (b.v - a.v) / w, (b.v / u - a.v / u) / w;
    assert t * w == b.v / u - a.v / u;
    assert (t * u) * w == b.v - a.v;
    Cancel(t * u, w);
    assert (t * q) * u == (t * u) * q;
  }

  /** A point of a segment is no lower and no higher than both ends. */
  lemma LineBetween(a: Knot, b: Knot, p: real)
    requires a.p < b.p && a.p <= p <= b.p
    ensures Min(a.v, b.v) <= Line(a, b, p) <= Max(a.v, b.v)
  {
    LineEnds(a, b);
    if a.v <= b.v {
      LineMonotone(a, b, a.p, p);
      LineMonotone(a, b, p, b.p);
    } else {
      var a', b' := Knot(a.p, -a.v), Knot(b.p, -b.v);
      LineEnds(a', b');
      LineMonotone(a', b', a.p, p);
      LineMonotone(a', b', p, b.p);
      Slope(b.v - a.v, p - a.p, b.p - a.p);
      Slope(b'.v - a'.v, p - a.p, b.p - a.p);
      assert (b'.v - a'.v) / (b.p - a.p) == -((b.v - a.v) / (b.p - a.p));
    }
  }

  /** On a segment the seconds, scaled up, are the nanoseconds, and lie between the two ends. */
  lemma SegmentNanos(q: seq<NanoKnot>, p: real, k: nat, top: nat)
    requires Increasing(Seconds(q)) && k + 1 < |q| && q[k].nanos <= top && q[k + 1].nanos <= top
    requires Seconds(q)[k].p <= p <= Seconds(q)[k + 1].p
    ensures var c, n := Seconds(q), Nanos(q);
            && Line(c[k], c[k + 1], p) * NANOS == Line(n[k], n[k + 1], p)
            && 0.0 <= Line(n[k], n[k + 1], p) <= top as real
  {
    var n := Nanos(q);
    LineScaled(n[k], n[k + 1], p, NANOS);
    LineBetween(n[k], n[k + 1], p);
  }

  /** For durations the result is exact at a knot within EPSILON, and otherwise the interpolated
      number of nanoseconds, cut off to a whole one; no cast ever sees a negative number or one
      above the largest value of the curve. */
  lemma DurationInterpolates(q: seq<NanoKnot>, p: real, top: nat)
    requires Increasing(Seconds(q)) && forall i :: 0 <= i < |q| ==> q[i].nanos <= top
    ensures Increasing(Nanos(q))
    ensures q == [] <==> DurationPercentile(q, p).None?
    ensures q != [] ==>
              var d := DurationPercentile(q, p).value;
              && d <= top
              && match Near(Nanos(q), p, 0)
                 case Some(k) => d as real == Interpolate(Nanos(q), q[k].p)
                 case None => d as real <= Interpolate(Nanos(q), p) < d as real + 1.0
  {
    var c, n := Seconds(q), Nanos(q);
    SameNear(c, n, p, 0);
    match Near(n, p, 0)
    case Some(k) => AtKnot(n, k);
    case None =>
      if q != [] && c[0].p < p < c[|c| - 1].p {
        var k := NeverFallsThrough(c, p);
        FactorScanIsScan(c, p, 0, k);
        SegmentNanos(q, p, k, top);
        var x := Line(n[k], n[k + 1], p);
        assert Interpolate(n, p) == x by {
          OnSegment(n, p, k);
        }
        assert DurationPercentile(q, p) == Some(Truncate(x));
      }
  }

  lemma {:induction false} SameNear(c: Curve, n: Curve, p: real, i: nat)
    requires |c| == |n| && forall k :: 0 <= k < |c| ==> c[k].p == n[k].p
    ensures Near(c, p, i) == Near(n, p, i)
    decreases |c| - i
  {
    if i < |c| {
      SameNear(c, n, p, i + 1);
    }
  }
}
