/** Quantile curves: lists of (percentile, value) knots read as piecewise linear functions. The
    program's f64 numbers are modelled as reals. */
module Curves {

  datatype Knot = Knot(p: real, v: real)

  type Curve = seq<Knot>

  /** Percentiles in strictly increasing order, as every set of estimates has them. */
  predicate Increasing(c: Curve) {
    forall i, j :: 0 <= i < j < |c| ==> c[i].p < c[j].p
  }

  /** Values in non-decreasing order. */
  predicate Monotone(c: Curve) {
    forall i, j :: 0 <= i <= j < |c| ==> c[i].v <= c[j].v
  }

  function Line(a: Knot, b: Knot, p: real): real
    requires a.p < b.p
  {
    a.v + (b.v - a.v) * (p - a.p) / (b.p - a.p)
  }

  /** The scan for the first pair of neighbours that brackets `p`. */
  function Scan(c: Curve, p: real, i: nat): real
    requires Increasing(c)
    decreases |c| - i
  {
    if i + 1 >= |c| then 0.0 // should never happen
    else if c[i].p <= p && p <= c[i + 1].p then Line(c[i], c[i + 1], p)
    else Scan(c, p, i + 1)
  }

  function Interpolate(c: Curve, p: real): real
    requires Increasing(c)
  {
    if c == [] then 0.0
    else if p <= c[0].p then c[0].v
    else if p >= c[|c| - 1].p then c[|c| - 1].v
    else Scan(c, p, 0)
  }

  // ---------------------------------------------------------------- lines

  lemma Cancel(x: real, y: real)
    requires y != 0.0
    ensures x * y / y == x
  {
  }

  lemma Slope(d: real, q: real, w: real)
    requires w != 0.0
    ensures d * q / w == (d / w) * q
  {
    var s := d / w;
    assert d == s * w;
    assert d * q == (s * q) * w;
    Cancel(s * q, w);
  }

  /** A line through two of its own points is the same line. */
  lemma LineThrough(a: Knot, b: Knot, x: real, y: real, p: real)
    requires a.p < b.p && x < y
    ensures Line(Knot(x, Line(a, b, x)), Knot(y, Line(a, b, y)), p) == Line(a, b, p)
  {
    var d, w := b.v - a.v, b.p - a.p;
    var s := d / w;
    Slope(d, x - a.p, w);
    Slope(d, y - a.p, w);
    Slope(d, p - a.p, w);
    var fx, fy := Line(a, b, x), Line(a, b, y);
    assert fx == a.v + s * (x - a.p) && fy == a.v + s * (y - a.p);
    assert fy - fx == s * (y - x);
    assert (fy - fx) * (p - x) == (s * (p - x)) * (y - x);
    Cancel(s * (p - x), y - x);
    assert s * (p - a.p) == s * (x - a.p) + s * (p - x);
  }

  lemma LineEnds(a: Knot, b: Knot)
    requires a.p < b.p
    ensures Line(a, b, a.p) == a.v && Line(a, b, b.p) == b.v
  {
    Cancel(b.v - a.v, b.p - a.p);
  }

  /** The average of two lines over the same percentiles is the line of the averages. */
  lemma LineAverage(x: real, y: real, ux: real, uy: real, vx: real, vy: real, p: real)
    requires x < y
    ensures Line(Knot(x, (ux + vx) / 2.0), Knot(y, (uy + vy) / 2.0), p)
         == (Line(Knot(x, ux), Knot(y, uy), p) + Line(Knot(x, vx), Knot(y, vy), p)) / 2.0
  {
    var w, q := y - x, p - x;
    Slope(uy - ux, q, w);
    Slope(vy - vx, q, w);
    var du, dv := uy - ux, vy - vx;
    var dm := (uy + vy) / 2.0 - (ux + vx) / 2.0;
    Slope(dm, q, w);
    assert dm == (du + dv) / 2.0;
    assert dm / w == (du / w + dv / w) / 2.0;
  }

  lemma LineMonotone(a: Knot, b: Knot, p: real, q: real)
    requires a.p < b.p && a.v <= b.v && p <= q
    ensures Line(a, b, p) <= Line(a, b, q)
  {
    var d, w := b.v - a.v, b.p - a.p;
    Slope(d, p - a.p, w);
    Slope(d, q - a.p, w);
    var s := d / w;
    assert s >= 0.0;
    assert s * (q - a.p) == s * (p - a.p) + s * (q - p);
    assert s * (q - p) >= 0.0;
  }

  // ---------------------------------------------------------------- interpolation

  lemma {:induction false} ScanFinds(c: Curve, p: real, i: nat, k: nat)
    requires Increasing(c) && i <= k && k + 1 < |c| && c[k].p <= p <= c[k + 1].p
    ensures Scan(c, p, i) == Line(c[k], c[k + 1], p)
    decreases k - i
  {
    if i == k {
    } else if c[i].p <= p <= c[i + 1].p {
      // the first bracket ends where the k-th begins
      assert p == c[k].p && i + 1 == k;
      LineEnds(c[i], c[i + 1]);
      LineEnds(c[k], c[k + 1]);
    } else {
      ScanFinds(c, p, i + 1, k);
    }
  }

  /** Between two neighbouring knots the curve is the line through them. */
  lemma OnSegment(c: Curve, p: real, k: nat)
    requires Increasing(c) && k + 1 < |c| && c[k].p <= p <= c[k + 1].p
    ensures Interpolate(c, p) == Line(c[k], c[k + 1], p)
  {
    LineEnds(c[k], c[k + 1]);
    if p <= c[0].p {
      assert k == 0;
    } else if p >= c[|c| - 1].p {
      assert k + 1 == |c| - 1;
    } else {
      ScanFinds(c, p, 0, k);
    }
  }

  /** The curve passes through every knot. */
  lemma AtKnot(c: Curve, k: nat)
    requires Increasing(c) && k < |c|
    ensures Interpolate(c, c[k].p) == c[k].v
  {
    if 0 < k < |c| - 1 {
      OnSegment(c, c[k].p, k);
      LineEnds(c[k], c[k + 1]);
    }
  }

  /** The same without division: the point, relative to the left knot, is in proportion. */
  lemma OnChord(c: Curve, p: real, k: nat)
    requires Increasing(c) && k + 1 < |c| && c[k].p <= p <= c[k + 1].p
    ensures (Interpolate(c, p) - c[k].v) * (c[k + 1].p - c[k].p) == (c[k + 1].v - c[k].v) * (p - c[k].p)
  {
    OnSegment(c, p, k);
    LineChord(c[k], c[k + 1], p);
  }

  lemma LineChord(a: Knot, b: Knot, p: real)
    requires a.p < b.p
    ensures (Line(a, b, p) - a.v) * (b.p - a.p) == (b.v - a.v) * (p - a.p)
  {
    DivBack(a.v, b.v - a.v, p - a.p, b.p - a.p);
  }

  lemma DivBack(v: real, d: real, q: real, w: real)
    requires w != 0.0
    ensures (v + d * q / w - v) * w == d * q
  {
    var x := d * q;
    assert x / w * w == x;
  }

  /** Outside its knots a curve is constant, and without knots it is zero. */
  lemma BeyondEnds(c: Curve, p: real)
    requires Increasing(c)
    ensures c == [] ==> Interpolate(c, p) == 0.0
    ensures c != [] && p <= c[0].p ==> Interpolate(c, p) == c[0].v
    ensures c != [] && p >= c[|c| - 1].p ==> Interpolate(c, p) == c[|c| - 1].v
  {
  }

  /** The last knot at or below `p`. */
  lemma {:induction false} Locate(c: Curve, p: real, n: nat) returns (k: nat)
    requires Increasing(c) && 0 < n <= |c| && c[0].p <= p
    ensures k < n && c[k].p <= p
    ensures forall j :: k < j < n ==> p < c[j].p
  {
    if c[n - 1].p <= p {
      k := n - 1;
    } else {
      k := Locate(c, p, n - 1);
    }
  }

  /** Strictly between its ends a curve is always on some segment, so the final 0.0 of the scan is
      never returned. */
  lemma NeverFallsThrough(c: Curve, p: real) returns (k: nat)
    requires Increasing(c) && c != [] && c[0].p < p < c[|c| - 1].p
    ensures k + 1 < |c| && c[k].p <= p <= c[k + 1].p
    ensures Interpolate(c, p) == Line(c[k], c[k + 1], p)
  {
    k := Locate(c, p, |c|);
    OnSegment(c, p, k);
  }

  /** With non-decreasing values the curve is monotone and stays between its end values. */
  lemma InterpolateMonotone(c: Curve, p: real, q: real)
    requires Increasing(c) && Monotone(c) && c != [] && p <= q
    ensures c[0].v <= Interpolate(c, p) <= Interpolate(c, q) <= c[|c| - 1].v
  {
    var n := |c| - 1;
    if c[0].p < p < c[n].p {
      var k := NeverFallsThrough(c, p);
      LineEnds(c[k], c[k + 1]);
      LineMonotone(c[k], c[k + 1], c[k].p, p);
      LineMonotone(c[k], c[k + 1], p, c[k + 1].p);
      if q < c[n].p {
        var l := NeverFallsThrough(c, q);
        LineEnds(c[l], c[l + 1]);
        LineMonotone(c[l], c[l + 1], c[l].p, q);
        LineMonotone(c[l], c[l + 1], q, c[l + 1].p);
        if c[k + 1].p <= q {
          if l < k + 1 {
            assert q == c[k + 1].p && l == k;
          }
        } else {
          OnSegment(c, q, k);
          LineMonotone(c[k], c[k + 1], p, q);
        }
      }
    } else if p <= c[0].p && c[0].p < q < c[n].p {
      var l := NeverFallsThrough(c, q);
      LineEnds(c[l], c[l + 1]);
      LineMonotone(c[l], c[l + 1], c[l].p, q);
      LineMonotone(c[l], c[l + 1], q, c[l + 1].p);
    }
  }

  /** No knot lies strictly between `x` and `y`. */
  predicate Clear(c: Curve, x: real, y: real) {
    forall k :: 0 <= k < |c| ==> c[k].p <= x || y <= c[k].p
  }

  /** On an interval without knots the curve is a line. */
  lemma LinearBetween(c: Curve, x: real, y: real, p: real)
    requires Increasing(c) && c != [] && x < y && x <= p <= y && Clear(c, x, y)
    ensures Interpolate(c, p) == Line(Knot(x, Interpolate(c, x)), Knot(y, Interpolate(c, y)), p)
  {
    var n := |c| - 1;
    if y <= c[0].p {
    } else if c[n].p <= x {
      assert forall q :: c[n].p <= q ==> Interpolate(c, q) == c[n].v by {
        AtKnot(c, n);
      }
    } else {
      assert c[0].p <= x;
      var k := Locate(c, x, |c|);
      assert y <= c[k + 1].p;
      OnSegment(c, x, k);
      OnSegment(c, y, k);
      OnSegment(c, p, k);
      LineThrough(c[k], c[k + 1], x, y, p);
    }
  }

  // ---------------------------------------------------------------- merging

  predicate HasPercentile(c: Curve, p: real) {
    exists k :: 0 <= k < |c| && c[k].p == p
  }

  /** `m` is the merger of `a` and `b`: its knots are exactly at the percentiles of both, in
      order, and each carries the average of the two curves there. */
  ghost predicate IsMerge(a: Curve, b: Curve, m: Curve)
    requires Increasing(a) && Increasing(b)
  {
    && Increasing(m)
    && (forall p :: HasPercentile(m, p) <==> HasPercentile(a, p) || HasPercentile(b, p))
    && (forall k :: 0 <= k < |m| ==> m[k].v == (Interpolate(a, m[k].p) + Interpolate(b, m[k].p)) / 2.0)
  }

  /** Between neighbouring knots of the merger neither curve has a knot. */
  lemma MergeClear(a: Curve, b: Curve, m: Curve, c: Curve, k: nat)
    requires Increasing(a) && Increasing(b) && IsMerge(a, b, m) && (c == a || c == b)
    requires k + 1 < |m|
    ensures Clear(c, m[k].p, m[k + 1].p)
  {
    forall j | 0 <= j < |c|
      ensures c[j].p <= m[k].p || m[k + 1].p <= c[j].p
    {
      assert HasPercentile(c, c[j].p);
      var i :| 0 <= i < |m| && m[i].p == c[j].p;
    }
  }

  /** The merger starts no later, and ends no earlier, than either curve. */
  lemma MergeCovers(a: Curve, b: Curve, m: Curve, c: Curve)
    requires Increasing(a) && Increasing(b) && IsMerge(a, b, m) && (c == a || c == b) && c != []
    ensures m != [] && m[0].p <= c[0].p && c[|c| - 1].p <= m[|m| - 1].p
  {
    assert HasPercentile(c, c[0].p) && HasPercentile(c, c[|c| - 1].p);
    var i :| 0 <= i < |m| && m[i].p == c[0].p;
    var j :| 0 <= j < |m| && m[j].p == c[|c| - 1].p;
  }

  /** Where the merger is constant, so is each curve. */
  lemma OutsideMerge(a: Curve, b: Curve, m: Curve, c: Curve, p: real)
    requires Increasing(a) && Increasing(b) && IsMerge(a, b, m) && (c == a || c == b) && c != []
    ensures m != []
    ensures p <= m[0].p ==> Interpolate(c, p) == Interpolate(c, m[0].p)
    ensures m[|m| - 1].p <= p ==> Interpolate(c, p) == Interpolate(c, m[|m| - 1].p)
  {
    MergeCovers(a, b, m, c);
    AtKnot(c, |c| - 1);
  }

  /** The merged curve is the average of its inputs at every percentile, not just at knots. */
  lemma MergeAverages(a: Curve, b: Curve, m: Curve, p: real)
    requires Increasing(a) && Increasing(b) && a != [] && b != [] && IsMerge(a, b, m)
    ensures Interpolate(m, p) == (Interpolate(a, p) + Interpolate(b, p)) / 2.0
  {
    OutsideMerge(a, b, m, a, p);
    OutsideMerge(a, b, m, b, p);
    if m[0].p < p < m[|m| - 1].p {
      var k := NeverFallsThrough(m, p);
      var x, y := m[k].p, m[k + 1].p;
      MergeClear(a, b, m, a, k);
      MergeClear(a, b, m, b, k);
      LinearBetween(a, x, y, p);
      LinearBetween(b, x, y, p);
      LineAverage(x, y, Interpolate(a, x), Interpolate(a, y), Interpolate(b, x), Interpolate(b, y), p);
    }
  }

  /** Two mergers of the same curves, in either order, are the same curve. */
  lemma MergeUnique(a: Curve, b: Curve, m: Curve, m': Curve)
    requires Increasing(a) && Increasing(b) && IsMerge(a, b, m) && IsMerge(b, a, m')
    ensures m == m'
  {
    SamePercentiles(m, m');
  }

  lemma {:induction false} SamePercentiles(c: Curve, d: Curve)
    requires Increasing(c) && Increasing(d)
    requires forall p :: HasPercentile(c, p) <==> HasPercentile(d, p)
    ensures |c| == |d| && forall k :: 0 <= k < |c| ==> c[k].p == d[k].p
  {
    if c != [] {
      assert HasPercentile(c, c[0].p);
    }
    if d != [] {
      assert HasPercentile(d, d[0].p);
    }
    if c != [] && d != [] {
      var i, j := |c| - 1, |d| - 1;
      assert HasPercentile(c, c[i].p) && HasPercentile(d, d[j].p);
      var i' :| 0 <= i' < |c| && c[i'].p == d[j].p;
      var j' :| 0 <= j' < |d| && d[j'].p == c[i].p;
      assert c[i].p == d[j].p;
      forall p
        ensures HasPercentile(c[..i], p) <==> HasPercentile(d[..j], p)
      {
        WithoutLast(c, p);
        WithoutLast(d, p);
      }
      SamePercentiles(c[..i], d[..j]);
    }
  }

  lemma WithoutLast(c: Curve, p: real)
    requires Increasing(c) && c != []
    ensures HasPercentile(c[..|c| - 1], p) <==> HasPercentile(c, p) && p != c[|c| - 1].p
  {
    var n := |c| - 1;
    if k :| 0 <= k < |c| && c[k].p == p && k != n {
      assert c[..n][k].p == p;
    }
    if HasPercentile(c[..n], p) {
      var k :| 0 <= k < n && c[..n][k].p == p;
      assert c[k].p == p;
    }
  }
}
