/** The distance between two quantile curves: the width-weighted mean of their absolute
    differences at the merged percentiles, relative to the range of all values. */
module Distance {
  import opened Curves

  /** f64::EPSILON */
  const EPSILON: real := 1.0 / 4503599627370496.0

  function Abs(x: real): real { if x < 0.0 then -x else x }

  function Min(x: real, y: real): real { if x < y then x else y }

  function Max(x: real, y: real): real { if x < y then y else x }

  /** Half the way to each neighbour; the first and the last knot reach to 0 and to 1. */
  function Width(m: Curve, i: nat): real
    requires i < |m|
  {
    (if i == 0 then m[0].p else (m[i].p - m[i - 1].p) / 2.0) +
    (if i == |m| - 1 then 1.0 - m[i].p else (m[i + 1].p - m[i].p) / 2.0)
  }

  /** All percentiles lie in [0, 1]. */
  predicate InUnit(c: Curve) {
    forall i :: 0 <= i < |c| ==> 0.0 <= c[i].p <= 1.0
  }

  function Delta(a: Curve, b: Curve, p: real): (r: real)
    requires Increasing(a) && Increasing(b)
    ensures r >= 0.0 && (r == Interpolate(a, p) - Interpolate(b, p) || r == Interpolate(b, p) - Interpolate(a, p))
    ensures r == 0.0 <==> Interpolate(a, p) == Interpolate(b, p)
  {
    Abs(Interpolate(a, p) - Interpolate(b, p))
  }

  function Widths(m: Curve): (r: seq<real>)
    ensures |r| == |m| && forall i :: 0 <= i < |m| ==> r[i] == Width(m, i)
  {
    seq(|m|, i requires 0 <= i < |m| => Width(m, i))
  }

  function Deltas(a: Curve, b: Curve, m: Curve): (r: seq<real>)
    requires Increasing(a) && Increasing(b)
    ensures |r| == |m| && forall i :: 0 <= i < |m| ==> r[i] == Delta(a, b, m[i].p)
  {
    seq(|m|, i requires 0 <= i < |m| => Delta(a, b, m[i].p))
  }

  /** The sum of the first `k` products. */
  function Dot(ws: seq<real>, ds: seq<real>, k: nat): real
    requires k <= |ws| == |ds|
  {
    if k == 0 then 0.0 else Dot(ws, ds, k - 1) + ws[k - 1] * ds[k - 1]
  }

  function Sum(ws: seq<real>, k: nat): real
    requires k <= |ws|
  {
    if k == 0 then 0.0 else Sum(ws, k - 1) + ws[k - 1]
  }

  /** The width-weighted sum of the differences at the knots of `m`. */
  function Weighted(a: Curve, b: Curve, m: Curve): real
    requires Increasing(a) && Increasing(b)
  {
    Dot(Widths(m), Deltas(a, b, m), |m|)
  }

  function Range(a: Curve, b: Curve): real
    requires a != [] && b != []
  {
    Max(a[|a| - 1].v, b[|b| - 1].v) - Min(a[0].v, b[0].v)
  }

  /** The distance of two non-empty curves with merger `m`. */
  function DistanceOver(a: Curve, b: Curve, m: Curve): real
    requires Increasing(a) && Increasing(b) && a != [] && b != []
  {
    if Abs(Range(a, b)) < EPSILON then 0.0 else Weighted(a, b, m) / Range(a, b)
  }

  // ---------------------------------------------------------------- widths

  lemma {:induction false} WidthPrefix(m: Curve, k: nat)
    requires 0 < k < |m|
    ensures Sum(Widths(m), k) == (m[k - 1].p + m[k].p) / 2.0
  {
    if k == 1 {
      assert Sum(Widths(m), 0) == 0.0;
    } else {
      WidthPrefix(m, k - 1);
    }
  }

  /** The widths of any non-empty list of percentiles sum to exactly one, and each is positive when
      the percentiles increase strictly within [0, 1]. */
  lemma WidthsSumToOne(m: Curve)
    requires m != []
    ensures Sum(Widths(m), |m|) == 1.0
    ensures Increasing(m) && InUnit(m) ==> forall i :: 0 <= i < |m| ==> Width(m, i) > 0.0
  {
    if |m| > 1 {
      WidthPrefix(m, |m| - 1);
    } else {
      assert Sum(Widths(m), 0) == 0.0;
    }
  }

  // ---------------------------------------------------------------- the unit interval

  lemma TermBounds(w: real, d: real, top: real)
    requires w > 0.0 && 0.0 <= d <= top
    ensures 0.0 <= w * d <= w * top
  {
  }

  lemma {:induction false} DotBounds(ws: seq<real>, ds: seq<real>, k: nat, top: real)
    requires k <= |ws| == |ds|
    requires forall i :: 0 <= i < k ==> ws[i] > 0.0 && 0.0 <= ds[i] <= top
    ensures 0.0 <= Dot(ws, ds, k) <= Sum(ws, k) * top
  {
    if k > 0 {
      DotBounds(ws, ds, k - 1, top);
      TermBounds(ws[k - 1], ds[k - 1], top);
      assert Sum(ws, k) * top == Sum(ws, k - 1) * top + ws[k - 1] * top;
    }
  }

  /** A mean, weighted with widths that sum to one, does not exceed a bound of the values. */
  lemma MeanBounds(ws: seq<real>, ds: seq<real>, k: nat, top: real)
    requires k <= |ws| == |ds| && Sum(ws, k) == 1.0
    requires forall i :: 0 <= i < k ==> ws[i] > 0.0 && 0.0 <= ds[i] <= top
    ensures 0.0 <= Dot(ws, ds, k) <= top
  {
    DotBounds(ws, ds, k, top);
    assert Sum(ws, k) * top == top;
  }

  lemma MergeInUnit(a: Curve, b: Curve, m: Curve)
    requires Increasing(a) && Increasing(b) && IsMerge(a, b, m) && InUnit(a) && InUnit(b)
    ensures InUnit(m)
  {
    forall i | 0 <= i < |m|
      ensures 0.0 <= m[i].p <= 1.0
    {
      assert HasPercentile(m, m[i].p);
    }
  }

  lemma DeltaWithinRange(a: Curve, b: Curve, p: real)
    requires Increasing(a) && Increasing(b) && a != [] && b != [] && Monotone(a) && Monotone(b)
    ensures Delta(a, b, p) <= Range(a, b)
  {
    InterpolateMonotone(a, p, p);
    InterpolateMonotone(b, p, p);
  }

  /** The curves that the program builds. */
  predicate Proper(c: Curve) {
    c != [] && Increasing(c) && Monotone(c) && InUnit(c)
  }

  lemma DivBounds(x: real, r: real)
    requires r > 0.0 && 0.0 <= x <= r
    ensures 0.0 <= x / r <= 1.0
  {
  }

  /** The weighted sum is between zero and the range: the widths sum to one. */
  lemma WeightedWithinRange(a: Curve, b: Curve, m: Curve)
    requires Proper(a) && Proper(b) && IsMerge(a, b, m)
    ensures 0.0 <= Weighted(a, b, m) <= Range(a, b)
  {
    MergeCovers(a, b, m, a);
    MergeInUnit(a, b, m);
    WidthsSumToOne(m);
    var r := Range(a, b);
    forall i | 0 <= i < |m|
      ensures Delta(a, b, m[i].p) <= r
    {
      DeltaWithinRange(a, b, m[i].p);
    }
    MeanBounds(Widths(m), Deltas(a, b, m), |m|, r);
  }

  /** Distance and similarity lie in [0, 1]. */
  lemma InUnitInterval(a: Curve, b: Curve, m: Curve)
    requires Proper(a) && Proper(b) && IsMerge(a, b, m)
    ensures 0.0 <= DistanceOver(a, b, m) <= 1.0
    ensures 0.0 <= 1.0 - DistanceOver(a, b, m) <= 1.0
  {
    WeightedWithinRange(a, b, m);
    if Range(a, b) >= EPSILON {
      DivBounds(Weighted(a, b, m), Range(a, b));
    }
  }

  // ---------------------------------------------------------------- symmetry and identity

  /** Exchanging the two curves, each way with its own merger, changes nothing. */
  lemma Symmetric(a: Curve, b: Curve, m: Curve, m': Curve)
    requires Increasing(a) && Increasing(b) && a != [] && b != []
    requires IsMerge(a, b, m) && IsMerge(b, a, m')
    ensures DistanceOver(a, b, m) == DistanceOver(b, a, m')
  {
    MergeUnique(a, b, m, m');
    assert Deltas(a, b, m) == Deltas(b, a, m);
    assert Range(a, b) == Range(b, a);
  }

  lemma {:induction false} DotZero(ws: seq<real>, ds: seq<real>, k: nat)
    requires k <= |ws| == |ds|
    requires forall i :: 0 <= i < k ==> ws[i] > 0.0 && ds[i] >= 0.0
    ensures Dot(ws, ds, k) >= 0.0
    ensures Dot(ws, ds, k) == 0.0 <==> forall i :: 0 <= i < k ==> ds[i] == 0.0
  {
    if k > 0 {
      DotZero(ws, ds, k - 1);
      var w, d := ws[k - 1], ds[k - 1];
      assert d > 0.0 ==> w * d > 0.0;
      if d == 0.0 {
        assert w * d == 0.0;
      }
    }
  }

  /** Curves that agree at the merged percentiles agree everywhere. */
  lemma AgreeEverywhere(a: Curve, b: Curve, m: Curve, p: real)
    requires Increasing(a) && Increasing(b) && a != [] && b != [] && IsMerge(a, b, m)
    requires forall i :: 0 <= i < |m| ==> Delta(a, b, m[i].p) == 0.0
    ensures Interpolate(a, p) == Interpolate(b, p)
  {
    OutsideMerge(a, b, m, a, p);
    OutsideMerge(a, b, m, b, p);
    assert Delta(a, b, m[0].p) == 0.0 && Delta(a, b, m[|m| - 1].p) == 0.0;
    if m[0].p < p < m[|m| - 1].p {
      var k := NeverFallsThrough(m, p);
      MergeClear(a, b, m, a, k);
      MergeClear(a, b, m, b, k);
      LinearBetween(a, m[k].p, m[k + 1].p, p);
      LinearBetween(b, m[k].p, m[k + 1].p, p);
      assert Delta(a, b, m[k].p) == 0.0 && Delta(a, b, m[k + 1].p) == 0.0;
    }
  }

  /** The weighted sum vanishes exactly when no merged percentile shows a difference. */
  lemma WeightedZero(a: Curve, b: Curve, m: Curve)
    requires Proper(a) && Proper(b) && IsMerge(a, b, m)
    ensures Weighted(a, b, m) >= 0.0
    ensures Weighted(a, b, m) == 0.0 <==> forall i :: 0 <= i < |m| ==> Delta(a, b, m[i].p) == 0.0
  {
    MergeCovers(a, b, m, a);
    MergeInUnit(a, b, m);
    WidthsSumToOne(m);
    var ds := Deltas(a, b, m);
    DotZero(Widths(m), ds, |m|);
    if forall i :: 0 <= i < |m| ==> ds[i] == 0.0 {
      assert forall i :: 0 <= i < |m| ==> Delta(a, b, m[i].p) == ds[i];
    }
  }

  lemma ZeroQuotient(w: real, r: real)
    requires r > 0.0
    ensures w / r == 0.0 <==> w == 0.0
  {
  }

  /** The distance is zero exactly when the curves agree at every percentile, or when the values
      of both together span less than EPSILON, which the program takes for agreement. */
  lemma ZeroExactlyWhenEqual(a: Curve, b: Curve, m: Curve)
    requires Proper(a) && Proper(b) && IsMerge(a, b, m)
    ensures DistanceOver(a, b, m) == 0.0 <==>
              Range(a, b) < EPSILON || forall p :: Interpolate(a, p) == Interpolate(b, p)
  {
    WeightedZero(a, b, m);
    DeltaWithinRange(a, b, 0.0);
    if Range(a, b) >= EPSILON {
      ZeroQuotient(Weighted(a, b, m), Range(a, b));
      if Weighted(a, b, m) == 0.0 {
        forall p
          ensures Interpolate(a, p) == Interpolate(b, p)
        {
          AgreeEverywhere(a, b, m, p);
        }
      }
    }
  }

  /** The EPSILON branch is not idle: different curves that span less have distance zero. */
  lemma NearCurvesCoincide() returns (a: Curve, b: Curve, m: Curve, p: real)
    ensures Proper(a) && Proper(b) && IsMerge(a, b, m)
    ensures DistanceOver(a, b, m) == 0.0 && Interpolate(a, p) != Interpolate(b, p)
  {
    var low, high := 0.0, EPSILON / 2.0;
    p := 0.5;
    a, b, m := [Knot(p, low)], [Knot(p, high)], [Knot(p, (low + high) / 2.0)];
    assert a[0].p == p && HasPercentile(a, p);
    assert b[0].p == p && HasPercentile(b, p);
    assert m[0].p == p && HasPercentile(m, p);
  }

  // ---------------------------------------------------------------- the value

  /** The two curves lie exactly `gaps[i]` apart at knot `i` of `m`. */
  predicate AreGaps(a: Curve, b: Curve, m: Curve, gaps: seq<real>)
    requires Increasing(a) && Increasing(b)
  {
    && |gaps| == |m|
    && forall i :: 0 <= i < |m| ==>
         && gaps[i] >= 0.0
         && var d := Interpolate(a, m[i].p) - Interpolate(b, m[i].p); gaps[i] == d || gaps[i] == -d
  }

  function Rectangle(width: real, height: real): real {
    width * height
  }

  function Trapezoid(width: real, left: real, right: real): real {
    width * (left + right) / 2.0
  }

  /** The area under the gaps from 0 up to knot `k`: constant before the first knot, and straight lines
      from knot to knot. */
  function AreaTo(m: Curve, gaps: seq<real>, k: nat): real
    requires k < |m| == |gaps|
  {
    if k == 0 then Rectangle(m[0].p, gaps[0])
    else AreaTo(m, gaps, k - 1) + Trapezoid(m[k].p - m[k - 1].p, gaps[k - 1], gaps[k])
  }

  /** `low` is the smaller of the two first values and `high` the larger of the two last ones. */
  predicate Spans(a: Curve, b: Curve, low: real, high: real)
    requires a != [] && b != []
  {
    && low <= a[0].v && low <= b[0].v && (low == a[0].v || low == b[0].v)
    && high >= a[|a| - 1].v && high >= b[|b| - 1].v && (high == a[|a| - 1].v || high == b[|b| - 1].v)
  }

  lemma Split(x: real, y: real, g: real)
    ensures (x + y) * g == x * g + y * g
  {
  }

  lemma TrapezoidHalves(width: real, half: real, g: real, h: real)
    requires half == width / 2.0
    ensures Trapezoid(width, g, h) == half * g + half * h
  {
  }

  lemma DotStep(ws: seq<real>, ds: seq<real>, k: nat, w: real, d: real)
    requires k < |ws| == |ds| && w == ws[k] && d == ds[k]
    ensures Dot(ws, ds, k + 1) == Dot(ws, ds, k) + w * d
  {
  }

  lemma AreaStep(m: Curve, gaps: seq<real>, k: nat, half: real, g: real, h: real)
    requires 0 < k < |m| == |gaps| && half == (m[k].p - m[k - 1].p) / 2.0 && g == gaps[k - 1] && h == gaps[k]
    ensures AreaTo(m, gaps, k) == AreaTo(m, gaps, k - 1) + half * g + half * h
  {
    TrapezoidHalves(m[k].p - m[k - 1].p, half, g, h);
  }

  /** One more weighted gap: its width is half the interval before the knot and `tail` behind it. */
  lemma OneMoreGap(m: Curve, gaps: seq<real>, k: nat, half: real, tail: real, g: real, h: real)
    requires 0 < k < |m| == |gaps| && half == (m[k].p - m[k - 1].p) / 2.0 && g == gaps[k - 1] && h == gaps[k]
    requires Widths(m)[k] == half + tail
    requires Dot(Widths(m), gaps, k) == AreaTo(m, gaps, k - 1) + Rectangle(half, g)
    ensures Dot(Widths(m), gaps, k + 1) == AreaTo(m, gaps, k) + Rectangle(tail, h)
  {
    var w := half + tail;
    DotStep(Widths(m), gaps, k, w, h);
    AreaStep(m, gaps, k, half, g, h);
    Split(half, tail, h);
  }

  lemma FirstGap(m: Curve, gaps: seq<real>, first: real, tail: real, g: real)
    requires 0 < |m| == |gaps| && first == m[0].p && g == gaps[0] && Widths(m)[0] == first + tail
    ensures Dot(Widths(m), gaps, 1) == AreaTo(m, gaps, 0) + Rectangle(tail, g)
  {
    var w := first + tail;
    assert Dot(Widths(m), gaps, 0) == 0.0;
    DotStep(Widths(m), gaps, 0, w, g);
    Split(first, tail, g);
  }

  lemma MiddleWidth(m: Curve, k: nat, half: real, tail: real)
    requires 0 < k < |m| && half == (m[k].p - m[k - 1].p) / 2.0
    requires tail == if k == |m| - 1 then 1.0 - m[k].p else (m[k + 1].p - m[k].p) / 2.0
    ensures Widths(m)[k] == half + tail
  {
  }

  lemma FirstWidth(m: Curve, tail: real)
    requires m != [] && tail == if |m| == 1 then 1.0 - m[0].p else (m[1].p - m[0].p) / 2.0
    ensures Widths(m)[0] == m[0].p + tail
  {
  }

  /** Summation by parts: the first weighted gaps, up to knot `k`, are the area up to that knot and the
      part of its own width that lies behind it. */
  lemma {:induction false} DotIsArea(m: Curve, gaps: seq<real>, k: nat, tail: real, g: real)
    requires k < |m| == |gaps| && g == gaps[k]
    requires tail == if k == |m| - 1 then 1.0 - m[k].p else (m[k + 1].p - m[k].p) / 2.0
    ensures Dot(Widths(m), gaps, k + 1) == AreaTo(m, gaps, k) + Rectangle(tail, g)
    decreases k
  {
    if k == 0 {
      FirstWidth(m, tail);
      FirstGap(m, gaps, m[0].p, tail, g);
    } else {
      var half := (m[k].p - m[k - 1].p) / 2.0;
      MiddleWidth(m, k, half, tail);
      DotIsArea(m, gaps, k - 1, half, gaps[k - 1]);
      OneMoreGap(m, gaps, k, half, tail, gaps[k - 1], g);
    }
  }

  lemma SpansRange(a: Curve, b: Curve, low: real, high: real)
    requires a != [] && b != [] && Spans(a, b, low, high)
    ensures Range(a, b) == high - low
  {
  }

  lemma QuotientTimes(d: real, w: real, r: real)
    requires r != 0.0 && d == w / r
    ensures d * r == w
  {
  }

  lemma TimesRange(a: Curve, b: Curve, m: Curve, r: real, w: real, d: real)
    requires Increasing(a) && Increasing(b) && a != [] && b != []
    ensures r == Range(a, b) && w == Weighted(a, b, m) && d == DistanceOver(a, b, m) ==>
              if -EPSILON < r < EPSILON then d == 0.0 else d * r == w
  {
    if r == Range(a, b) && w == Weighted(a, b, m) && d == DistanceOver(a, b, m) && !(-EPSILON < r < EPSILON) {
      QuotientTimes(d, w, r);
    }
  }

  lemma GapsAreDeltas(a: Curve, b: Curve, m: Curve, gaps: seq<real>)
    requires Increasing(a) && Increasing(b) && AreGaps(a, b, m, gaps)
    ensures Weighted(a, b, m) == Dot(Widths(m), gaps, |m|)
  {
    assert Deltas(a, b, m) == gaps;
  }

  /** The area under the gaps from 0 to 1: constant again behind the last knot. */
  ghost predicate IsArea(m: Curve, gaps: seq<real>, area: real)
    requires |m| == |gaps|
  {
    forall k: nat {:trigger AreaTo(m, gaps, k)} :: k + 1 == |m| ==>
      area == AreaTo(m, gaps, k) + Rectangle(1.0 - m[k].p, gaps[k])
  }

  lemma WholeDot(m: Curve, gaps: seq<real>, area: real)
    requires m != [] && |m| == |gaps| && IsArea(m, gaps, area)
    ensures Dot(Widths(m), gaps, |m|) == area
  {
    var k := |m| - 1;
    DotIsArea(m, gaps, k, 1.0 - m[k].p, gaps[k]);
  }

  lemma WeightedIsArea(a: Curve, b: Curve, m: Curve, gaps: seq<real>, area: real)
    requires Increasing(a) && Increasing(b) && m != [] && AreGaps(a, b, m, gaps) && IsArea(m, gaps, area)
    ensures Weighted(a, b, m) == area
  {
    GapsAreDeltas(a, b, m, gaps);
    WholeDot(m, gaps, area);
  }

  /** The distance `d` times the range `r` is the area between the curves, the gaps at the merged
      percentiles being joined by straight lines. A range below EPSILON counts as no distance. */
  lemma DistanceIsArea(a: Curve, b: Curve, m: Curve, gaps: seq<real>, low: real, high: real, r: real, area: real,
                       d: real)
    requires Increasing(a) && Increasing(b) && a != [] && b != [] && m != [] && IsMerge(a, b, m)
    requires AreGaps(a, b, m, gaps) && Spans(a, b, low, high) && r == high - low && IsArea(m, gaps, area)
    requires d == DistanceOver(a, b, m)
    ensures if -EPSILON < r < EPSILON then d == 0.0 else d * r == area
  {
    WeightedIsArea(a, b, m, gaps, area);
    SpansRange(a, b, low, high);
    TimesRange(a, b, m, r, area, d);
  }

  lemma {:induction false} DotConstant(ws: seq<real>, ds: seq<real>, g: real, k: nat)
    requires k <= |ws| == |ds| && forall i :: 0 <= i < k ==> ds[i] == g
    ensures Dot(ws, ds, k) == Sum(ws, k) * g
  {
    if k > 0 {
      DotConstant(ws, ds, g, k - 1);
      Split(Sum(ws, k - 1), ws[k - 1], g);
    }
  }

  lemma ConstantDot(ws: seq<real>, ds: seq<real>, g: real)
    requires |ws| == |ds| && Sum(ws, |ws|) == 1.0 && forall i :: 0 <= i < |ws| ==> ds[i] == g
    ensures Dot(ws, ds, |ws|) == g
  {
    DotConstant(ws, ds, g, |ws|);
    assert 1.0 * g == g;
  }

  /** Curves a constant gap `g` apart have the gap, relative to the range `r`, as their distance. */
  lemma ConstantGap(a: Curve, b: Curve, m: Curve, gaps: seq<real>, g: real, low: real, high: real, r: real, d: real)
    requires Increasing(a) && Increasing(b) && a != [] && b != [] && m != [] && IsMerge(a, b, m)
    requires AreGaps(a, b, m, gaps) && Spans(a, b, low, high) && r == high - low >= EPSILON
    requires forall i :: 0 <= i < |m| ==> gaps[i] == g
    ensures d == DistanceOver(a, b, m) ==> d * r == g
  {
    assert Weighted(a, b, m) == g by {
      GapsAreDeltas(a, b, m, gaps);
      WidthsSumToOne(m);
      ConstantDot(Widths(m), gaps, g);
    }
    SpansRange(a, b, low, high);
    TimesRange(a, b, m, r, g, d);
  }

  lemma {:induction false} DotMinus(ws: seq<real>, ds: seq<real>, es: seq<real>, k: nat, top: real)
    requires k <= |ws| == |ds| == |es| && forall i :: 0 <= i < k ==> es[i] == top - ds[i]
    ensures Dot(ws, es, k) == Sum(ws, k) * top - Dot(ws, ds, k)
  {
    if k > 0 {
      DotMinus(ws, ds, es, k - 1, top);
      Split(Sum(ws, k - 1), ws[k - 1], top);
      Split(ds[k - 1], es[k - 1], ws[k - 1]);
    }
  }

  /** A weighted mean reaches its bound exactly when every value does. */
  lemma MeanReaches(ws: seq<real>, ds: seq<real>, top: real)
    requires |ws| == |ds| && Sum(ws, |ws|) == 1.0
    requires forall i :: 0 <= i < |ws| ==> ws[i] > 0.0 && ds[i] <= top
    ensures Dot(ws, ds, |ws|) == top <==> forall i :: 0 <= i < |ws| ==> ds[i] == top
  {
    var rest := seq(|ws|, i requires 0 <= i < |ws| => top - ds[i]);
    DotMinus(ws, ds, rest, |ws|, top);
    DotZero(ws, rest, |ws|);
    assert Sum(ws, |ws|) * top == top;
    assert forall i :: 0 <= i < |ws| ==> (rest[i] == 0.0 <==> ds[i] == top);
  }

  lemma WeightedReaches(a: Curve, b: Curve, m: Curve, gaps: seq<real>, r: real)
    requires Proper(a) && Proper(b) && IsMerge(a, b, m) && AreGaps(a, b, m, gaps) && r == Range(a, b)
    ensures Weighted(a, b, m) == r <==> forall i :: 0 <= i < |m| ==> gaps[i] == r
  {
    MergeCovers(a, b, m, a);
    MergeInUnit(a, b, m);
    WidthsSumToOne(m);
    GapsAreDeltas(a, b, m, gaps);
    forall i | 0 <= i < |m|
      ensures gaps[i] <= r
    {
      DeltaWithinRange(a, b, m[i].p);
    }
    MeanReaches(Widths(m), gaps, r);
  }

  lemma OneTimes(d: real, r: real, w: real)
    requires r > 0.0 && d * r == w
    ensures d == 1.0 <==> w == r
  {
    if w == r {
      assert (d - 1.0) * r == 0.0;
    }
  }

  /** The distance is one exactly when every gap is the whole range. */
  lemma OneExactlyWhenApart(a: Curve, b: Curve, m: Curve, gaps: seq<real>, low: real, high: real, r: real)
    requires Proper(a) && Proper(b) && IsMerge(a, b, m)
    requires AreGaps(a, b, m, gaps) && Spans(a, b, low, high) && r == high - low >= EPSILON
    ensures DistanceOver(a, b, m) == 1.0 <==> forall i :: 0 <= i < |m| ==> gaps[i] == r
  {
    var d, w := DistanceOver(a, b, m), Weighted(a, b, m);
    SpansRange(a, b, low, high);
    WeightedReaches(a, b, m, gaps, r);
    TimesRange(a, b, m, r, w, d);
    OneTimes(d, r, w);
  }

  // ---------------------------------------------------------------- the program's loops

  predicate Sorted(s: seq<real>) {
    forall i, j :: 0 <= i < j < |s| ==> s[i] <= s[j]
  }

  predicate Distinct(s: seq<real>) {
    forall i, j :: 0 <= i < j < |s| ==> s[i] != s[j]
  }

  function Insert(s: seq<real>, x: real): (r: seq<real>)
    requires Sorted(s)
    ensures Sorted(r) && |r| == |s| + 1
    ensures forall y :: y in r <==> y in s || y == x
    ensures Distinct(s) && x !in s ==> Distinct(r)
  {
    if s == [] then [x]
    else if x <= s[0] then [x] + s
    else
      var rest := s[1..];
      assert s == [s[0]] + rest;
      assert Distinct(s) ==> Distinct(rest) && s[0] !in rest;
      var r := Insert(rest, x);
      assert forall i :: 0 <= i < |r| ==> r[i] in r;
      [s[0]] + r
  }

  /** The standard library's sort, on numbers. */
  function Sort(s: seq<real>): (r: seq<real>)
    ensures Sorted(r) && |r| == |s|
    ensures forall y :: y in r <==> y in s
    ensures Distinct(s) ==> Distinct(r)
  {
    if s == [] then []
    else
      var r := Sort(s[..|s| - 1]);
      assert s == s[..|s| - 1] + [s[|s| - 1]];
      Insert(r, s[|s| - 1])
  }

  method MergeQuantiles(a: Curve, b: Curve) returns (m: Curve)
    requires Increasing(a) && Increasing(b)
    ensures IsMerge(a, b, m)
  {
    var percentiles: seq<real> := [];
    for i := 0 to |a|
      invariant Distinct(percentiles)
      invariant forall p :: p in percentiles <==> exists k :: 0 <= k < i && a[k].p == p
    {
      if a[i].p !in percentiles {
        percentiles := percentiles + [a[i].p];
      }
    }
    assert forall p :: p in percentiles <==> HasPercentile(a, p);
    for i := 0 to |b|
      invariant Distinct(percentiles)
      invariant forall p :: p in percentiles <==> HasPercentile(a, p) || exists k :: 0 <= k < i && b[k].p == p
    {
      if b[i].p !in percentiles {
        percentiles := percentiles + [b[i].p];
      }
    }
    assert forall p :: p in percentiles <==> HasPercentile(a, p) || HasPercentile(b, p);
    percentiles := Sort(percentiles);
    m := [];
    for i := 0 to |percentiles|
      invariant |m| == i
      invariant forall k :: 0 <= k < i ==>
        m[k] == Knot(percentiles[k], (Interpolate(a, percentiles[k]) + Interpolate(b, percentiles[k])) / 2.0)
    {
      var p := percentiles[i];
      m := m + [Knot(p, (Interpolate(a, p) + Interpolate(b, p)) / 2.0)];
    }
    forall p
      ensures HasPercentile(m, p) <==> p in percentiles
    {
      if k :| 0 <= k < |percentiles| && percentiles[k] == p {
        assert m[k].p == p;
      }
    }
  }

  /** The accumulating loop of `distance`, given the width and the difference at each knot. */
  method Accumulate(ws: seq<real>, ds: seq<real>) returns (d: real)
    requires |ws| == |ds|
    ensures d == Dot(ws, ds, |ws|)
  {
    d := 0.0;
    for i := 0 to |ws|
      invariant d == Dot(ws, ds, i)
    {
      d := d + ws[i] * ds[i];
    }
  }

  /** `distance`: 1 when a curve is empty, otherwise the distance over the merger. */
  method ComputeDistance(a: Curve, b: Curve) returns (d: real)
    requires Increasing(a) && Increasing(b)
    ensures a == [] || b == [] ==> d == 1.0
    ensures a != [] && b != [] ==> forall m :: IsMerge(a, b, m) ==> d == DistanceOver(a, b, m)
  {
    if a == [] || b == [] {
      return 1.0;
    }
    var quantiles := MergeQuantiles(a, b);
    OneMerge(a, b, quantiles);
    var totalMin := Min(a[0].v, b[0].v);
    var totalMax := Max(a[|a| - 1].v, b[|b| - 1].v);
    if Abs(totalMax - totalMin) < EPSILON {
      return 0.0;
    }
    d := Accumulate(Widths(quantiles), Deltas(a, b, quantiles));
    d := d / (totalMax - totalMin);
  }

  lemma OneMerge(a: Curve, b: Curve, m: Curve)
    requires Increasing(a) && Increasing(b) && IsMerge(a, b, m)
    ensures forall m' :: IsMerge(a, b, m') ==> m' == m
  {
    forall m' | IsMerge(a, b, m')
      ensures m' == m
    {
      MergeUnique(a, b, m', m);
    }
  }
}
