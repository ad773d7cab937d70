/** The time-weighted mean of a piecewise-linear outdoor forecast. */
module ForecastMean {
  import StableSort

  /** Minutes from now and a temperature. */
  datatype Sample = Sample(at: real, temp: real)

  // ----- Sorting -----

  predicate Precedes(a: Sample, b: Sample) {
    a.at < b.at || (a.at == b.at && a.temp <= b.temp)
  }

  predicate Sorted(s: seq<Sample>) {
    forall i, j :: 0 <= i < j < |s| ==> Precedes(s[i], s[j])
  }

  function Sort(s: seq<Sample>): (r: seq<Sample>)
    ensures |r| == |s|
  {
    StableSort.Sort(s, Precedes)
  }

  lemma SortSorts(s: seq<Sample>)
    ensures Sorted(Sort(s)) && multiset(Sort(s)) == multiset(s)
  {
    StableSort.SortOrders(s, Precedes);
  }

  /** Two sorted arrangements of the same samples are the same. */
  lemma SortedIsUnique(a: seq<Sample>, b: seq<Sample>)
    requires Sorted(a) && Sorted(b) && multiset(a) == multiset(b)
    ensures a == b
  {
    StableSort.OrderedIsUnique(a, b, Precedes);
  }

  // ----- The curve -----

  function Portion(share: real, rise: real): real {
    share * rise
  }

  function Line(p: Sample, q: Sample, m: real): real
    requires p.at != q.at
  {
    p.temp + Portion((m - p.at) / (q.at - p.at), q.temp - p.temp)
  }

  /** The first segment from position `i` on that holds `m`. */
  function OnSegment(pts: seq<Sample>, m: real, i: nat): real
    requires i < |pts|
    decreases |pts| - i
  {
    if i + 1 == |pts| then pts[i].temp
    else if pts[i].at <= m <= pts[i + 1].at then
      if pts[i].at == pts[i + 1].at then pts[i].temp else Line(pts[i], pts[i + 1], m)
    else OnSegment(pts, m, i + 1)
  }

  /** Linear between samples, flat outside their range. */
  function TempAt(pts: seq<Sample>, m: real): real
    requires pts != []
  {
    if m <= pts[0].at then pts[0].temp
    else if m >= pts[|pts| - 1].at then pts[|pts| - 1].temp
    else OnSegment(pts, m, 0)
  }

  // ----- Breakpoints and the integral -----

  predicate Ascending(xs: seq<real>) {
    forall i, j :: 0 <= i < j < |xs| ==> xs[i] < xs[j]
  }

  /** The distinct sample times strictly inside the horizon. */
  function Interior(pts: seq<Sample>, horizon: real): seq<real> {
    if pts == [] then []
    else
      var rest, at := Interior(pts[..|pts| - 1], horizon), pts[|pts| - 1].at;
      if 0.0 < at < horizon && (rest == [] || rest[|rest| - 1] != at) then rest + [at] else rest
  }

  function Breaks(pts: seq<Sample>, horizon: real): seq<real> {
    [0.0] + Interior(pts, horizon) + [horizon]
  }

  /** The curve of the sorted samples. */
  function Curve(pts: seq<Sample>): real -> real
    requires pts != []
  {
    m => TempAt(pts, m)
  }

  function Trapezoid(f: real -> real, x0: real, x1: real): real {
    0.5 * (f(x0) + f(x1)) * (x1 - x0)
  }

  function Integral(f: real -> real, xs: seq<real>): real {
    if |xs| <= 1 then 0.0
    else Integral(f, xs[..|xs| - 1]) + Trapezoid(f, xs[|xs| - 2], xs[|xs| - 1])
  }

  function Mean(samples: seq<Sample>, horizon: real, fallback: real): real {
    if horizon <= 0.0 || samples == [] then fallback
    else
        Integral(Curve(Sort(samples)), Breaks(Sort(samples), horizon)) / horizon
  }

  method IntegrateTrapezoids(f: real -> real, breaks: seq<real>) returns (integral: real)
    ensures integral == Integral(f, breaks)
  {
    integral := 0.0;
    var i := 1;
    while i < |breaks|
      invariant 1 <= i && (i <= |breaks| || |breaks| == 0)
      invariant integral == if breaks == [] then 0.0 else Integral(f, breaks[..i])
    {
      assert breaks[..i + 1][..i] == breaks[..i];
      integral := integral + 0.5 * (f(breaks[i - 1]) + f(breaks[i])) * (breaks[i] - breaks[i - 1]);
      i := i + 1;
    }
    assert breaks != [] ==> breaks[..i] == breaks;
  }

  method MeanForecastOutdoor(samples: seq<Sample>, horizon: real, fallback: real) returns (mean: real)
    ensures mean == Mean(samples, horizon, fallback)
  {
    if horizon <= 0.0 || samples == [] {
      return fallback;
    }
    var pts := Sort(samples);
    var integral := IntegrateTrapezoids(Curve(pts), Breaks(pts, horizon));
    mean := integral / horizon;
  }

  /** The order of the samples does not matter. */
  lemma OrderDoesNotMatter(a: seq<Sample>, b: seq<Sample>, horizon: real, fallback: real)
    requires multiset(a) == multiset(b)
    ensures Mean(a, horizon, fallback) == Mean(b, horizon, fallback)
  {
    SortSorts(a);
    SortSorts(b);
    SortedIsUnique(Sort(a), Sort(b));
    assert |multiset(a)| == |a| && |multiset(b)| == |b|;
  }

  // ----- The mean lies among the samples -----

  predicate Between(s: seq<Sample>, lo: real, hi: real) {
    forall i :: 0 <= i < |s| ==> lo <= s[i].temp <= hi
  }

  lemma ProductIsNonNegative(x: real, y: real)
    requires x >= 0.0 && y >= 0.0
    ensures x * y >= 0.0
  {
  }

  /** A share of a rise or fall is between nothing and all of it. */
  lemma PortionIsBetween(share: real, rise: real)
    requires 0.0 <= share <= 1.0
    ensures rise >= 0.0 ==> 0.0 <= Portion(share, rise) <= rise
    ensures rise <= 0.0 ==> rise <= Portion(share, rise) <= 0.0
  {
    var rest := 1.0 - share;
    assert rest * rise == rise - share * rise;
    if rise >= 0.0 {
      ProductIsNonNegative(share, rise);
      ProductIsNonNegative(rest, rise);
    } else {
      var fall := -rise;
      ProductIsNonNegative(share, fall);
      ProductIsNonNegative(rest, fall);
      assert share * fall == -(share * rise) && rest * fall == -(rest * rise);
    }
  }

  lemma NegativeProduct(x: real, width: real)
    requires width > 0.0
    ensures x < 0.0 ==> x * width < 0.0
  {
  }

  lemma Ratio(q: real, total: real, width: real, lo: real, hi: real)
    requires width > 0.0 && q * width == total && lo * width <= total && total <= hi * width
    ensures lo <= q <= hi
  {
    NegativeProduct(q - lo, width);
    NegativeProduct(hi - q, width);
    assert (q - lo) * width == total - lo * width;
    assert (hi - q) * width == hi * width - total;
  }

  lemma Fraction(a: real, b: real)
    requires 0.0 <= a <= b && 0.0 < b
    ensures 0.0 <= a / b <= 1.0
  {
    Ratio(a / b, a, b, 0.0, 1.0);
  }

  lemma LineStaysBetween(p: Sample, q: Sample, m: real, lo: real, hi: real)
    requires p.at <= m <= q.at && p.at < q.at && lo <= p.temp <= hi && lo <= q.temp <= hi
    ensures lo <= Line(p, q, m) <= hi
  {
    Fraction(m - p.at, q.at - p.at);
    PortionIsBetween((m - p.at) / (q.at - p.at), q.temp - p.temp);
  }

  lemma {:induction false} SegmentStaysBetween(pts: seq<Sample>, m: real, i: nat, lo: real, hi: real)
    requires i < |pts| && Between(pts, lo, hi)
    ensures lo <= OnSegment(pts, m, i) <= hi
    decreases |pts| - i
  {
    if i + 1 < |pts| {
      if pts[i].at <= m <= pts[i + 1].at {
        if pts[i].at < pts[i + 1].at {
          LineStaysBetween(pts[i], pts[i + 1], m, lo, hi);
        }
      } else {
        SegmentStaysBetween(pts, m, i + 1, lo, hi);
      }
    }
  }

  lemma TempStaysBetween(pts: seq<Sample>, m: real, lo: real, hi: real)
    requires pts != [] && Between(pts, lo, hi)
    ensures lo <= TempAt(pts, m) <= hi
  {
    SegmentStaysBetween(pts, m, 0, lo, hi);
  }

  lemma AreaBounds(c: real, lo: real, hi: real, dx: real)
    requires lo <= c <= hi && 0.0 <= dx
    ensures lo * dx <= c * dx
    ensures c * dx <= hi * dx
  {
  }

  lemma TrapezoidBounds(f: real -> real, x0: real, x1: real, lo: real, hi: real)
    requires lo <= f(x0) <= hi && lo <= f(x1) <= hi && x0 <= x1
    ensures lo * (x1 - x0) <= Trapezoid(f, x0, x1)
    ensures Trapezoid(f, x0, x1) <= hi * (x1 - x0)
  {
    AreaBounds(0.5 * (f(x0) + f(x1)), lo, hi, x1 - x0);
  }

  lemma EmptyArea(c: real, x: real, y: real)
    requires x == y
    ensures c * (y - x) == 0.0
  {
  }

  /** Bounds of two adjoining areas add up. */
  lemma AreasAdd(lo: real, hi: real, x: real, y: real, z: real, left: real, right: real)
    requires lo * (y - x) <= left && left <= hi * (y - x)
    requires lo * (z - y) <= right && right <= hi * (z - y)
    ensures lo * (z - x) <= left + right
    ensures left + right <= hi * (z - x)
  {
    calc {
      lo * (y - x) + lo * (z - y);
      lo * (z - x);
    }
    calc {
      hi * (y - x) + hi * (z - y);
      hi * (z - x);
    }
  }

  lemma {:induction false} IntegralBounds(f: real -> real, xs: seq<real>, lo: real, hi: real, first: real, last: real)
    requires xs != [] && Ascending(xs) && first == xs[0] && last == xs[|xs| - 1]
    requires forall m :: lo <= f(m) <= hi
    ensures lo * (last - first) <= Integral(f, xs)
    ensures Integral(f, xs) <= hi * (last - first)
    decreases |xs|
  {
    if |xs| > 1 {
      var n := |xs| - 1;
      var before := xs[n - 1];
      IntegralBounds(f, xs[..n], lo, hi, first, before);
      TrapezoidBounds(f, before, last, lo, hi);
      AreasAdd(lo, hi, first, before, last, Integral(f, xs[..n]), Trapezoid(f, before, last));
    } else {
      EmptyArea(lo, first, last);
      EmptyArea(hi, first, last);
    }
  }

  lemma AscendingSnoc(xs: seq<real>, x: real)
    requires Ascending(xs) && (xs != [] ==> xs[|xs| - 1] < x)
    ensures Ascending(xs + [x])
  {
  }

  predicate Inside(xs: seq<real>, horizon: real) {
    forall i :: 0 <= i < |xs| ==> 0.0 < xs[i] < horizon
  }

  /** The interior times ascend strictly and stay inside the horizon. */
  lemma {:induction false} InteriorAscends(pts: seq<Sample>, horizon: real)
    requires Sorted(pts)
    ensures var r := Interior(pts, horizon);
            && Ascending(r) && Inside(r, horizon)
            && (r != [] ==> pts != [] && r[|r| - 1] <= pts[|pts| - 1].at)
    decreases |pts|
  {
    if pts != [] {
      var n := |pts| - 1;
      var rest, at := Interior(pts[..n], horizon), pts[n].at;
      InteriorAscends(pts[..n], horizon);
      assert n > 0 ==> Precedes(pts[n - 1], pts[n]);
      if 0.0 < at < horizon && (rest == [] || rest[|rest| - 1] != at) {
        AscendingSnoc(rest, at);
      }
    }
  }

  /** No sample time inside the horizon is missed. */
  lemma {:induction false} InteriorMissesNone(pts: seq<Sample>, horizon: real, k: nat) returns (i: nat)
    requires k < |pts| && 0.0 < pts[k].at < horizon
    ensures i < |Interior(pts, horizon)| && Interior(pts, horizon)[i] == pts[k].at
    decreases |pts|
  {
    var n := |pts| - 1;
    if k < n {
      i := InteriorMissesNone(pts[..n], horizon, k);
    } else {
      i := |Interior(pts, horizon)| - 1;
    }
  }

  lemma SortKeepsBounds(s: seq<Sample>, lo: real, hi: real)
    requires Between(s, lo, hi)
    ensures Between(Sort(s), lo, hi)
  {
    SortSorts(s);
    forall i | 0 <= i < |Sort(s)| ensures lo <= Sort(s)[i].temp <= hi {
      assert Sort(s)[i] in multiset(s);
    }
  }

  lemma BreaksSpanTheHorizon(pts: seq<Sample>, horizon: real)
    requires Sorted(pts) && horizon > 0.0
    ensures var xs := Breaks(pts, horizon);
            |xs| >= 2 && Ascending(xs) && xs[0] == 0.0 && xs[|xs| - 1] == horizon
  {
    InteriorAscends(pts, horizon);
  }

  lemma QuotientBetween(total: real, width: real, lo: real, hi: real)
    requires width > 0.0 && lo * width <= total && total <= hi * width
    ensures lo <= total / width <= hi
  {
    Ratio(total / width, total, width, lo, hi);
  }

  lemma SumBounds(pts: seq<Sample>, xs: seq<real>, lo: real, hi: real, horizon: real)
    requires pts != [] && Between(pts, lo, hi) && xs != [] && Ascending(xs) && xs[0] == 0.0 && xs[|xs| - 1] == horizon
    ensures lo * horizon <= Integral(Curve(pts), xs)
    ensures Integral(Curve(pts), xs) <= hi * horizon
  {
    forall m ensures lo <= TempAt(pts, m) <= hi {
      TempStaysBetween(pts, m, lo, hi);
    }
    IntegralBounds(Curve(pts), xs, lo, hi, 0.0, horizon);
    assert horizon - 0.0 == horizon;
  }

  lemma SortedMeanLiesBetween(pts: seq<Sample>, horizon: real, lo: real, hi: real)
    requires horizon > 0.0 && pts != [] && Sorted(pts) && Between(pts, lo, hi)
    ensures lo <= Integral(Curve(pts), Breaks(pts, horizon)) / horizon <= hi
  {
    BreaksSpanTheHorizon(pts, horizon);
    SumBounds(pts, Breaks(pts, horizon), lo, hi, horizon);
    QuotientBetween(Integral(Curve(pts), Breaks(pts, horizon)), horizon, lo, hi);
  }

  /** The mean lies between any bounds of the sample temperatures, so between their extremes. */
  lemma MeanLiesBetween(samples: seq<Sample>, horizon: real, fallback: real, lo: real, hi: real)
    requires horizon > 0.0 && samples != [] && Between(samples, lo, hi)
    ensures lo <= Mean(samples, horizon, fallback) <= hi
  {
    SortSorts(samples);
    SortKeepsBounds(samples, lo, hi);
    SortedMeanLiesBetween(Sort(samples), horizon, lo, hi);
  }

  // ----- The curve between neighbouring sample times -----

  /** All samples of the time agree. */
  predicate OneTemp(pts: seq<Sample>, t: real) {
    forall i, j :: 0 <= i < |pts| && 0 <= j < |pts| && pts[i].at == t && pts[j].at == t ==> pts[i].temp == pts[j].temp
  }

  /** `x` is the last sample time, with earlier ones before it. */
  predicate EndsAt(pts: seq<Sample>, x: real)
    requires pts != []
  {
    pts[0].at < pts[|pts| - 1].at == x
  }

  lemma Whole(d: real)
    requires d != 0.0
    ensures d / d == 1.0 && 0.0 / d == 0.0
  {
  }

  /** A line passes through its two samples. */
  lemma LineEnds(p: Sample, q: Sample)
    requires p.at < q.at
    ensures Line(p, q, p.at) == p.temp && Line(p, q, q.at) == q.temp
  {
    Whole(q.at - p.at);
    assert 1.0 * (q.temp - p.temp) == q.temp - p.temp && 0.0 * (q.temp - p.temp) == 0.0;
  }

  /** The first segment that holds `m` is the one that ends at or after it. */
  lemma {:induction false} SegmentUpTo(pts: seq<Sample>, m: real, k: nat, i: nat)
    requires Sorted(pts) && i <= k && k + 1 < |pts| && pts[k].at < m <= pts[k + 1].at
    ensures OnSegment(pts, m, i) == Line(pts[k], pts[k + 1], m)
    decreases k - i
  {
    if i < k {
      assert Precedes(pts[i + 1], pts[k]) || i + 1 == k;
      SegmentUpTo(pts, m, k, i + 1);
    }
  }

  lemma LineIsAffine(p: Sample, q: Sample, m: real, base: real, slope: real)
    requires p.at < q.at && slope == (q.temp - p.temp) / (q.at - p.at) && base == p.temp - slope * p.at
    ensures Line(p, q, m) == base + slope * m
  {
    var d, f := q.at - p.at, (m - p.at) / (q.at - p.at);
    assert f * d == m - p.at && slope * d == q.temp - p.temp;
    calc {
      f * (q.temp - p.temp);
      f * (slope * d);
      f * d * slope;
      (m - p.at) * slope;
      slope * m - slope * p.at;
    }
  }

  /** The last sample no later than `x`. */
  function LastUpTo(pts: seq<Sample>, x: real): (k: int)
    ensures -1 <= k < |pts|
    ensures k >= 0 ==> pts[k].at <= x
    ensures k + 1 < |pts| && Sorted(pts) ==> x < pts[k + 1].at
  {
    if pts == [] then -1
    else if pts[|pts| - 1].at <= x then |pts| - 1
    else LastUpTo(pts[..|pts| - 1], x)
  }

  predicate NoKnotInside(pts: seq<Sample>, x0: real, x1: real) {
    forall k :: 0 <= k < |pts| ==> !(x0 < pts[k].at < x1)
  }

  /** The first sample of a time. */
  lemma FirstOfTime(pts: seq<Sample>, k: nat) returns (j: nat)
    requires Sorted(pts) && k < |pts|
    ensures j <= k && pts[j].at == pts[k].at && (j > 0 ==> pts[j - 1].at < pts[j].at)
  {
    j := k;
    while j > 0 && pts[j - 1].at == pts[k].at
      invariant j <= k && pts[j].at == pts[k].at
    {
      j := j - 1;
    }
    assert j > 0 ==> Precedes(pts[j - 1], pts[j]);
  }

  /** The samples from `j` to `k` are all of their time: they agree exactly when the ends do. */
  lemma OneTempExactly(pts: seq<Sample>, j: nat, k: nat)
    requires Sorted(pts) && j <= k < |pts| && pts[j].at == pts[k].at
    requires j > 0 ==> pts[j - 1].at < pts[j].at
    requires k + 1 < |pts| ==> pts[k].at < pts[k + 1].at
    ensures OneTemp(pts, pts[k].at) <==> pts[j].temp == pts[k].temp
  {
    forall i | 0 <= i < j ensures pts[i].at < pts[j].at {
      assert i == j - 1 || Precedes(pts[i], pts[j - 1]);
    }
    forall i | k < i < |pts| ensures pts[k].at < pts[i].at {
      assert i == k + 1 || Precedes(pts[k + 1], pts[i]);
    }
    if pts[j].temp == pts[k].temp {
      forall i | 0 <= i < |pts| && pts[i].at == pts[k].at ensures pts[i].temp == pts[k].temp {
        assert i == j || i == k || (Precedes(pts[j], pts[i]) && Precedes(pts[i], pts[k]));
      }
    }
  }

  /** The curve reaches the first of the samples of one time, if it is not the last time. */
  lemma CurveTakesTheFirst(pts: seq<Sample>, k: nat)
    requires Sorted(pts) && k < |pts| && (k > 0 ==> pts[k - 1].at < pts[k].at)
    requires k == 0 || pts[k].at < pts[|pts| - 1].at
    ensures TempAt(pts, pts[k].at) == pts[k].temp
  {
    if k > 0 {
      assert k == 1 || Precedes(pts[0], pts[k - 1]);
      SegmentUpTo(pts, pts[k].at, k - 1, 0);
      LineEnds(pts[k - 1], pts[k]);
    }
  }

  /** Strictly between the two times the curve is one line. */
  ghost predicate AffineInside(f: real -> real, x0: real, x1: real, base: real, slope: real) {
    forall m :: x0 < m < x1 ==> f(m) == base + slope * m
  }

  /** On a stretch without sample times the curve is one line; it starts on that line exactly when
      the samples of the start agree or it is the end of the forecast, and stops on it exactly when
      that is not the end of the forecast or the samples there agree. */
  ghost predicate OneLine(pts: seq<Sample>, x0: real, x1: real, base: real, slope: real)
    requires pts != []
  {
    && AffineInside(Curve(pts), x0, x1, base, slope)
    && (TempAt(pts, x0) == base + slope * x0 <==> (EndsAt(pts, x0) || OneTemp(pts, x0)))
    && (TempAt(pts, x1) == base + slope * x1 <==> (!EndsAt(pts, x1) || OneTemp(pts, x1)))
  }

  lemma BeforeTheFirst(pts: seq<Sample>, x0: real, x1: real)
    requires pts != [] && Sorted(pts) && x0 < x1 <= pts[0].at
    ensures OneLine(pts, x0, x1, pts[0].temp, 0.0)
  {
    forall k | 0 <= k < |pts| ensures x0 < pts[k].at {
      assert k == 0 || Precedes(pts[0], pts[k]);
    }
  }

  lemma BehindTheLast(pts: seq<Sample>, x0: real, x1: real)
    requires pts != [] && Sorted(pts) && pts[|pts| - 1].at <= x0 < x1
    ensures OneLine(pts, x0, x1, pts[|pts| - 1].temp, 0.0)
  {
    var n := |pts| - 1;
    assert n == 0 || Precedes(pts[0], pts[n]);
    forall k | 0 <= k < |pts| ensures pts[k].at <= pts[n].at {
      assert k == n || Precedes(pts[k], pts[n]);
    }
    if x0 == pts[0].at {
      OneTempExactly(pts, 0, n);
    }
  }

  /** Where a stretch without sample times lies, if it is not outside all of them. */
  lemma StretchLiesInSegment(pts: seq<Sample>, x0: real, x1: real)
    requires pts != [] && Sorted(pts) && x0 < x1 && NoKnotInside(pts, x0, x1)
    requires pts[0].at < x1 && x0 < pts[|pts| - 1].at
    ensures var k := LastUpTo(pts, x0);
            0 <= k < |pts| - 1 && pts[k].at <= x0 && x1 <= pts[k + 1].at
  {
    var k := LastUpTo(pts, x0);
    assert pts[0].at <= x0;
    assert k < |pts| - 1 ==> x1 <= pts[k + 1].at;
  }

  /** Inside segment `k`, its right end included unless it ends the forecast, the curve is its line. */
  lemma InsideSegment(pts: seq<Sample>, k: nat, m: real)
    requires Sorted(pts) && k + 1 < |pts| && pts[k].at < m <= pts[k + 1].at && m < pts[|pts| - 1].at
    ensures TempAt(pts, m) == Line(pts[k], pts[k + 1], m)
  {
    assert k == 0 || Precedes(pts[0], pts[k]);
    SegmentUpTo(pts, m, k, 0);
  }

  /** The curve starts segment `k` on its line exactly when the samples of that time agree. */
  lemma SegmentStart(pts: seq<Sample>, k: nat, x0: real)
    requires Sorted(pts) && k + 1 < |pts| && pts[k].at <= x0 < pts[k + 1].at
    ensures TempAt(pts, x0) == Line(pts[k], pts[k + 1], x0) <==> OneTemp(pts, x0)
  {
    assert k + 1 == |pts| - 1 || Precedes(pts[k + 1], pts[|pts| - 1]);
    if pts[k].at < x0 {
      InsideSegment(pts, k, x0);
      forall i | 0 <= i < |pts| ensures pts[i].at != x0 {
        assert i < k ==> Precedes(pts[i], pts[k]);
        assert i > k + 1 ==> Precedes(pts[k + 1], pts[i]);
      }
    } else {
      var j := FirstOfTime(pts, k);
      CurveTakesTheFirst(pts, j);
      OneTempExactly(pts, j, k);
      LineEnds(pts[k], pts[k + 1]);
    }
  }

  /** The curve stops segment `k` on its line unless that is a jump at the end of the forecast. */
  lemma SegmentStop(pts: seq<Sample>, k: nat, x1: real)
    requires Sorted(pts) && k + 1 < |pts| && pts[k].at < x1 <= pts[k + 1].at
    ensures TempAt(pts, x1) == Line(pts[k], pts[k + 1], x1) <==> (!EndsAt(pts, x1) || OneTemp(pts, x1))
  {
    var n := |pts| - 1;
    assert k == 0 || Precedes(pts[0], pts[k]);
    assert k + 1 == n || Precedes(pts[k + 1], pts[n]);
    if x1 < pts[n].at {
      InsideSegment(pts, k, x1);
    } else {
      OneTempExactly(pts, k + 1, n);
      LineEnds(pts[k], pts[k + 1]);
    }
  }

  lemma WithinSegment(pts: seq<Sample>, k: nat, x0: real, x1: real, base: real, slope: real)
    requires Sorted(pts) && k + 1 < |pts| && pts[k].at <= x0 < x1 <= pts[k + 1].at
    requires slope == (pts[k + 1].temp - pts[k].temp) / (pts[k + 1].at - pts[k].at)
    requires base == pts[k].temp - slope * pts[k].at
    ensures OneLine(pts, x0, x1, base, slope)
  {
    var p, q := pts[k], pts[k + 1];
    assert k + 1 == |pts| - 1 || Precedes(q, pts[|pts| - 1]);
    forall m | x0 < m < x1 ensures TempAt(pts, m) == base + slope * m {
      InsideSegment(pts, k, m);
      LineIsAffine(p, q, m, base, slope);
    }
    SegmentStart(pts, k, x0);
    LineIsAffine(p, q, x0, base, slope);
    SegmentStop(pts, k, x1);
    LineIsAffine(p, q, x1, base, slope);
  }

  lemma CurveIsOneLine(pts: seq<Sample>, x0: real, x1: real) returns (base: real, slope: real)
    requires pts != [] && Sorted(pts) && x0 < x1 && NoKnotInside(pts, x0, x1)
    ensures OneLine(pts, x0, x1, base, slope)
  {
    if x1 <= pts[0].at {
      base, slope := pts[0].temp, 0.0;
      BeforeTheFirst(pts, x0, x1);
    } else if pts[|pts| - 1].at <= x0 {
      base, slope := pts[|pts| - 1].temp, 0.0;
      BehindTheLast(pts, x0, x1);
    } else {
      StretchLiesInSegment(pts, x0, x1);
      var k := LastUpTo(pts, x0);
      slope := (pts[k + 1].temp - pts[k].temp) / (pts[k + 1].at - pts[k].at);
      base := pts[k].temp - slope * pts[k].at;
      WithinSegment(pts, k, x0, x1, base, slope);
    }
  }

  // ----- What one more breakpoint changes -----

  /** The area under a line. */
  function Primitive(base: real, slope: real, x: real): real {
    base * x + 0.5 * slope * x * x
  }

  lemma AreaOfLine(base: real, slope: real, x0: real, x1: real)
    ensures 0.5 * ((base + slope * x0) + (base + slope * x1)) * (x1 - x0) ==
            Primitive(base, slope, x1) - Primitive(base, slope, x0)
  {
    var w := x1 - x0;
    calc {
      0.5 * ((base + slope * x0) + (base + slope * x1)) * w;
      base * w + 0.5 * slope * (x0 + x1) * w;
      base * w + 0.5 * slope * (x1 * x1 - x0 * x0);
      Primitive(base, slope, x1) - Primitive(base, slope, x0);
    }
  }

  /** A trapezoid whose corners are off the line by `e0` and `e1`. */
  lemma OffTheLine(f: real -> real, x0: real, x1: real, base: real, slope: real, e0: real, e1: real)
    requires f(x0) == base + slope * x0 - e0 && f(x1) == base + slope * x1 - e1
    ensures Trapezoid(f, x0, x1) ==
            Primitive(base, slope, x1) - Primitive(base, slope, x0) - 0.5 * (e0 + e1) * (x1 - x0)
  {
    AreaOfLine(base, slope, x0, x1);
    var w, line := x1 - x0, (base + slope * x0) + (base + slope * x1);
    assert 0.5 * (line - (e0 + e1)) * w == 0.5 * line * w - 0.5 * (e0 + e1) * w;
    assert f(x0) + f(x1) == line - (e0 + e1);
  }

  /** What a breakpoint on the line between two corners off it changes. */
  function Shift(e0: real, e1: real, left: real, right: real): real {
    0.5 * e0 * right + 0.5 * e1 * left
  }

  lemma ShiftOfErrors(e0: real, e1: real, left: real, right: real)
    ensures 0.5 * (e0 + e1) * (left + right) - 0.5 * (e0 + 0.0) * left - 0.5 * (0.0 + e1) * right ==
            Shift(e0, e1, left, right)
  {
  }

  lemma SplitShift(f: real -> real, x0: real, y: real, x1: real, base: real, slope: real, e0: real, e1: real)
    requires f(x0) == base + slope * x0 - e0 && f(y) == base + slope * y && f(x1) == base + slope * x1 - e1
    ensures Trapezoid(f, x0, y) + Trapezoid(f, y, x1) == Trapezoid(f, x0, x1) + Shift(e0, e1, y - x0, x1 - y)
  {
    OffTheLine(f, x0, y, base, slope, e0, 0.0);
    OffTheLine(f, y, x1, base, slope, 0.0, e1);
    OffTheLine(f, x0, x1, base, slope, e0, e1);
    ShiftOfErrors(e0, e1, y - x0, x1 - y);
    assert (y - x0) + (x1 - y) == x1 - x0;
  }

  /** Any breakpoint between the two leaves the area between them unchanged. */
  ghost predicate SplitsWithin(f: real -> real, x0: real, x1: real) {
    forall y :: x0 < y < x1 ==> Trapezoid(f, x0, y) + Trapezoid(f, y, x1) == Trapezoid(f, x0, x1)
  }

  lemma NoShiftNoError(e0: real, e1: real, quarter: real)
    requires quarter > 0.0
    requires Shift(e0, e1, quarter, 3.0 * quarter) == 0.0 && Shift(e0, e1, 3.0 * quarter, quarter) == 0.0
    ensures e0 == 0.0 && e1 == 0.0
  {
    var p, q := e0 * quarter, e1 * quarter;
    assert Shift(e0, e1, quarter, 3.0 * quarter) == 1.5 * p + 0.5 * q;
    assert Shift(e0, e1, 3.0 * quarter, quarter) == 0.5 * p + 1.5 * q;
  }

  /** A gap over which the curve is one line splits freely exactly when both corners are on it. */
  lemma SplitsExactly(f: real -> real, x0: real, x1: real, base: real, slope: real)
    requires x0 < x1 && AffineInside(f, x0, x1, base, slope)
    ensures SplitsWithin(f, x0, x1) <==> (f(x0) == base + slope * x0 && f(x1) == base + slope * x1)
  {
    var e0, e1 := base + slope * x0 - f(x0), base + slope * x1 - f(x1);
    forall y | x0 < y < x1
      ensures Trapezoid(f, x0, y) + Trapezoid(f, y, x1) == Trapezoid(f, x0, x1) + Shift(e0, e1, y - x0, x1 - y)
    {
      SplitShift(f, x0, y, x1, base, slope, e0, e1);
    }
    if SplitsWithin(f, x0, x1) {
      var quarter := (x1 - x0) / 4.0;
      var y, z := x0 + quarter, x1 - quarter;
      assert Trapezoid(f, x0, y) + Trapezoid(f, y, x1) == Trapezoid(f, x0, x1);
      assert Trapezoid(f, x0, z) + Trapezoid(f, z, x1) == Trapezoid(f, x0, x1);
      assert x1 - y == 3.0 * quarter && z - x0 == 3.0 * quarter;
      NoShiftNoError(e0, e1, quarter);
    }
  }

  /** No jump at either end of a gap, as far as the gap sees it. */
  predicate GapIsClean(pts: seq<Sample>, x0: real, x1: real)
    requires pts != []
  {
    (EndsAt(pts, x0) || OneTemp(pts, x0)) && (!EndsAt(pts, x1) || OneTemp(pts, x1))
  }

  lemma GapSplitsExactly(pts: seq<Sample>, x0: real, x1: real)
    requires pts != [] && Sorted(pts) && x0 < x1 && NoKnotInside(pts, x0, x1)
    ensures SplitsWithin(Curve(pts), x0, x1) <==> GapIsClean(pts, x0, x1)
  {
    var base, slope := CurveIsOneLine(pts, x0, x1);
    SplitsExactly(Curve(pts), x0, x1, base, slope);
  }

  // ----- Refining the breakpoints -----

  /** No sample time lies strictly between neighbouring breakpoints. */
  ghost predicate Knotted(pts: seq<Sample>, xs: seq<real>) {
    forall i :: 0 <= i < |xs| - 1 ==> NoKnotInside(pts, xs[i], xs[i + 1])
  }

  lemma BreakAtKnot(pts: seq<Sample>, horizon: real, k: nat) returns (j: nat)
    requires k < |pts| && 0.0 < pts[k].at < horizon
    ensures 0 < j < |Breaks(pts, horizon)| - 1 && Breaks(pts, horizon)[j] == pts[k].at
  {
    var i := InteriorMissesNone(pts, horizon, k);
    j := i + 1;
  }

  lemma BreaksAreKnotted(pts: seq<Sample>, horizon: real)
    requires Sorted(pts) && horizon > 0.0
    ensures Knotted(pts, Breaks(pts, horizon)) && Ascending(Breaks(pts, horizon))
  {
    var xs := Breaks(pts, horizon);
    BreaksSpanTheHorizon(pts, horizon);
    forall i, k | 0 <= i < |xs| - 1 && 0 <= k < |pts| ensures !(xs[i] < pts[k].at < xs[i + 1]) {
      assert 0.0 <= xs[i] && xs[i + 1] <= horizon;
      if 0.0 < pts[k].at < horizon {
        var j := BreakAtKnot(pts, horizon, k);
        assert xs[j] <= xs[i] || xs[i + 1] <= xs[j];
      }
    }
  }

  /** A breakpoint put where it belongs; one that is already there or outside changes nothing. */
  function Put(xs: seq<real>, y: real): seq<real> {
    if |xs| <= 1 || xs[|xs| - 1] <= y then xs
    else if xs[|xs| - 2] < y then xs[..|xs| - 1] + [y] + [xs[|xs| - 1]]
    else Put(xs[..|xs| - 1], y) + [xs[|xs| - 1]]
  }

  predicate SameEnds(xs: seq<real>, ys: seq<real>) {
    && (xs == [] <==> ys == [])
    && (xs != [] ==> xs[0] == ys[0] && xs[|xs| - 1] == ys[|ys| - 1])
  }

  lemma {:induction false} PutKeepsOrder(xs: seq<real>, y: real)
    requires Ascending(xs)
    ensures Ascending(Put(xs, y)) && SameEnds(xs, Put(xs, y))
    decreases |xs|
  {
    if |xs| > 1 && y <= xs[|xs| - 2] {
      PutKeepsOrder(xs[..|xs| - 1], y);
    }
  }

  lemma {:induction false} PutKeepsKnots(pts: seq<Sample>, xs: seq<real>, y: real)
    requires Ascending(xs) && Knotted(pts, xs)
    ensures Knotted(pts, Put(xs, y))
    decreases |xs|
  {
    if |xs| > 1 && y < xs[|xs| - 1] {
      var n := |xs| - 1;
      assert NoKnotInside(pts, xs[n - 1], xs[n]);
      if y <= xs[n - 1] {
        PutKeepsKnots(pts, xs[..n], y);
        PutKeepsOrder(xs[..n], y);
      }
    }
  }

  lemma IntegralOfOneMore(f: real -> real, xs: seq<real>, x: real)
    requires xs != []
    ensures Integral(f, xs + [x]) == Integral(f, xs) + Trapezoid(f, xs[|xs| - 1], x)
  {
    assert (xs + [x])[..|xs|] == xs;
  }

  lemma PutBeforeLast(front: seq<real>, last: real, y: real)
    requires front != [] && y < last
    ensures Put(front + [last], y) ==
            if front[|front| - 1] < y then front + [y] + [last] else Put(front, y) + [last]
  {
    assert (front + [last])[..|front|] == front;
  }

  lemma PutInLastGap(f: real -> real, front: seq<real>, y: real, last: real)
    requires front != [] && front[|front| - 1] < y < last
    ensures var x := front[|front| - 1];
            Integral(f, front + [y] + [last]) ==
            Integral(f, front + [last]) + (Trapezoid(f, x, y) + Trapezoid(f, y, last) - Trapezoid(f, x, last))
  {
    IntegralOfOneMore(f, front, y);
    IntegralOfOneMore(f, front + [y], last);
    IntegralOfOneMore(f, front, last);
  }

  /** A breakpoint put into gap `i` changes the sum by what it changes in that gap. */
  lemma {:induction false} PutInGap(f: real -> real, xs: seq<real>, i: nat, y: real)
    requires Ascending(xs) && i + 1 < |xs| && xs[i] < y < xs[i + 1]
    ensures Integral(f, Put(xs, y)) ==
            Integral(f, xs) + (Trapezoid(f, xs[i], y) + Trapezoid(f, y, xs[i + 1]) - Trapezoid(f, xs[i], xs[i + 1]))
    decreases |xs|
  {
    var front, last := xs[..|xs| - 1], xs[|xs| - 1];
    assert xs == front + [last];
    PutBeforeLast(front, last, y);
    if i + 1 < |front| {
      PutInGap(f, front, i, y);
      PutKeepsOrder(front, y);
      IntegralOfOneMore(f, front, last);
      IntegralOfOneMore(f, Put(front, y), last);
    } else {
      PutInLastGap(f, front, y, last);
    }
  }

  /** Where a breakpoint goes: into a gap, or nowhere. */
  lemma {:induction false} PutGoesSomewhere(xs: seq<real>, y: real) returns (i: int)
    requires Ascending(xs)
    ensures if i < 0 then Put(xs, y) == xs else i + 1 < |xs| && xs[i] < y < xs[i + 1]
    decreases |xs|
  {
    if |xs| <= 1 || xs[|xs| - 1] <= y {
      i := -1;
    } else if xs[|xs| - 2] < y {
      i := |xs| - 2;
    } else {
      i := PutGoesSomewhere(xs[..|xs| - 1], y);
    }
  }

  function PutAll(xs: seq<real>, ys: seq<real>): seq<real> {
    if ys == [] then xs else Put(PutAll(xs, ys[..|ys| - 1]), ys[|ys| - 1])
  }

  /** No gap of the breakpoints ends in a jump it sees. */
  ghost predicate AllClean(pts: seq<Sample>, xs: seq<real>)
    requires pts != []
  {
    forall i :: 0 <= i < |xs| - 1 ==> GapIsClean(pts, xs[i], xs[i + 1])
  }

  // ----- The exact condition -----

  /** Where two temperatures for one time matter: any time of the horizon but its end; at the end of
      the forecast any time of the horizon but its start. A forecast of one time only has no end. */
  predicate NoJumpInside(pts: seq<Sample>, horizon: real)
    requires pts != []
  {
    forall k :: 0 <= k < |pts| ==>
                  var t := pts[k].at;
                  if EndsAt(pts, t) then 0.0 < t <= horizon ==> OneTemp(pts, t)
                  else 0.0 <= t < horizon ==> OneTemp(pts, t)
  }

  /** Any stretch of the horizon is clean without a jump inside. */
  lemma CleanWithoutJumps(pts: seq<Sample>, horizon: real, x0: real, x1: real)
    requires pts != [] && NoJumpInside(pts, horizon) && 0.0 <= x0 < x1 <= horizon
    ensures GapIsClean(pts, x0, x1)
  {
    assert OneTemp(pts, x0) || exists k :: 0 <= k < |pts| && pts[k].at == x0;
    assert OneTemp(pts, x1) || exists k :: 0 <= k < |pts| && pts[k].at == x1;
  }

  /** The breakpoints of the program see every jump inside. */
  lemma CleanBreaksExcludeJumps(pts: seq<Sample>, horizon: real)
    requires pts != [] && Sorted(pts) && horizon > 0.0 && AllClean(pts, Breaks(pts, horizon))
    ensures NoJumpInside(pts, horizon)
  {
    var xs := Breaks(pts, horizon);
    var n := |xs| - 1;
    BreaksSpanTheHorizon(pts, horizon);
    assert GapIsClean(pts, xs[0], xs[1]) && GapIsClean(pts, xs[n - 1], xs[n]);
    forall k | 0 <= k < |pts| && 0.0 < pts[k].at < horizon ensures OneTemp(pts, pts[k].at) {
      var j := BreakAtKnot(pts, horizon, k);
      assert GapIsClean(pts, xs[j - 1], xs[j]) && GapIsClean(pts, xs[j], xs[j + 1]);
    }
  }

  /** The sum over the breakpoints does not change with more of them. */
  ghost predicate Unmoved(f: real -> real, xs: seq<real>) {
    forall ys :: Integral(f, PutAll(xs, ys)) == Integral(f, xs)
  }

  lemma UnmovedGapsAreClean(pts: seq<Sample>, xs: seq<real>)
    requires pts != [] && Sorted(pts) && Ascending(xs) && Knotted(pts, xs) && Unmoved(Curve(pts), xs)
    ensures AllClean(pts, xs)
  {
    var f := Curve(pts);
    forall i | 0 <= i < |xs| - 1 ensures GapIsClean(pts, xs[i], xs[i + 1]) {
      forall y | xs[i] < y < xs[i + 1]
        ensures Trapezoid(f, xs[i], y) + Trapezoid(f, y, xs[i + 1]) == Trapezoid(f, xs[i], xs[i + 1])
      {
        assert PutAll(xs, [y]) == Put(PutAll(xs, []), y) == Put(xs, y);
        PutInGap(f, xs, i, y);
      }
      GapSplitsExactly(pts, xs[i], xs[i + 1]);
    }
  }

  lemma {:induction false} RefinementKeepsIntegral(pts: seq<Sample>, horizon: real, xs: seq<real>, ys: seq<real>)
    requires pts != [] && Sorted(pts) && NoJumpInside(pts, horizon) && Ascending(xs) && Knotted(pts, xs)
    requires xs != [] && xs[0] == 0.0 && xs[|xs| - 1] == horizon
    ensures var r := PutAll(xs, ys);
            Integral(Curve(pts), r) == Integral(Curve(pts), xs) && Ascending(r) && Knotted(pts, r) && SameEnds(xs, r)
    decreases |ys|
  {
    if ys != [] {
      var n := |ys| - 1;
      RefinementKeepsIntegral(pts, horizon, xs, ys[..n]);
      var r := PutAll(xs, ys[..n]);
      PutKeepsOrder(r, ys[n]);
      PutKeepsKnots(pts, r, ys[n]);
      PutWithoutJumps(pts, horizon, r, ys[n]);
    }
  }

  /** Without a jump inside one more breakpoint changes nothing. */
  lemma PutWithoutJumps(pts: seq<Sample>, horizon: real, xs: seq<real>, y: real)
    requires pts != [] && Sorted(pts) && NoJumpInside(pts, horizon) && Ascending(xs) && Knotted(pts, xs)
    requires xs != [] && xs[0] == 0.0 && xs[|xs| - 1] == horizon
    ensures Integral(Curve(pts), Put(xs, y)) == Integral(Curve(pts), xs)
  {
    var i := PutGoesSomewhere(xs, y);
    if i >= 0 {
      assert 0.0 <= xs[i] && xs[i + 1] <= horizon;
      CleanWithoutJumps(pts, horizon, xs[i], xs[i + 1]);
      GapSplitsExactly(pts, xs[i], xs[i + 1]);
      PutInGap(Curve(pts), xs, i, y);
    }
  }

  lemma SumIsExactUnlessJumped(pts: seq<Sample>, horizon: real)
    requires pts != [] && Sorted(pts) && horizon > 0.0
    ensures Unmoved(Curve(pts), Breaks(pts, horizon)) <==> NoJumpInside(pts, horizon)
  {
    var xs := Breaks(pts, horizon);
    BreaksSpanTheHorizon(pts, horizon);
    BreaksAreKnotted(pts, horizon);
    if NoJumpInside(pts, horizon) {
      forall ys ensures Integral(Curve(pts), PutAll(xs, ys)) == Integral(Curve(pts), xs) {
        RefinementKeepsIntegral(pts, horizon, xs, ys);
      }
    } else if Unmoved(Curve(pts), xs) {
      UnmovedGapsAreClean(pts, xs);
      CleanBreaksExcludeJumps(pts, horizon);
    }
  }

  lemma SameQuotient(a: real, b: real, d: real)
    requires d > 0.0
    ensures a / d == b / d <==> a == b
  {
    assert a / d * d == a && b / d * d == b;
  }

  /** The mean over the breakpoints with more of them put in. */
  function RefinedMean(pts: seq<Sample>, horizon: real, ys: seq<real>): real
    requires pts != [] && horizon > 0.0
  {
    Integral(Curve(pts), PutAll(Breaks(pts, horizon), ys)) / horizon
  }

  lemma RefinedMeanMoves(pts: seq<Sample>, horizon: real, ys: seq<real>)
    requires pts != [] && horizon > 0.0
    ensures var f, xs := Curve(pts), Breaks(pts, horizon);
            RefinedMean(pts, horizon, ys) == RefinedMean(pts, horizon, []) <==>
            Integral(f, PutAll(xs, ys)) == Integral(f, xs)
  {
    var f, xs := Curve(pts), Breaks(pts, horizon);
    SameQuotient(Integral(f, PutAll(xs, ys)), Integral(f, xs), horizon);
  }

  lemma SortedMeanIsExactUnlessJumped(pts: seq<Sample>, horizon: real)
    requires pts != [] && Sorted(pts) && horizon > 0.0
    ensures (forall ys :: RefinedMean(pts, horizon, ys) == RefinedMean(pts, horizon, [])) <==>
            NoJumpInside(pts, horizon)
  {
    forall ys
      ensures var f, xs := Curve(pts), Breaks(pts, horizon);
              RefinedMean(pts, horizon, ys) == RefinedMean(pts, horizon, []) <==>
              Integral(f, PutAll(xs, ys)) == Integral(f, xs)
    {
      RefinedMeanMoves(pts, horizon, ys);
    }
    SumIsExactUnlessJumped(pts, horizon);
  }

  /** The result is the exact mean of the flat-extended piecewise-linear curve, which no further
      breakpoints change, exactly when no time that matters carries two temperatures. */
  lemma MeanIsExactUnlessJumped(samples: seq<Sample>, horizon: real, fallback: real)
    requires horizon > 0.0 && samples != []
    ensures Sort(samples) != []
    ensures (forall ys :: Mean(samples, horizon, fallback) == RefinedMean(Sort(samples), horizon, ys)) <==>
            NoJumpInside(Sort(samples), horizon)
  {
    SortSorts(samples);
    assert Mean(samples, horizon, fallback) == RefinedMean(Sort(samples), horizon, []);
    SortedMeanIsExactUnlessJumped(Sort(samples), horizon);
  }

  const JUMPED := [Sample(5.0, 0.0), Sample(5.0, 10.0)]

  lemma CurveOfTwo(pts: seq<Sample>, m: real)
    requires |pts| == 2 && pts[0].at == pts[1].at
    ensures TempAt(pts, m) == if m <= pts[0].at then pts[0].temp else pts[1].temp
  {
  }

  lemma SumOfThree(f: real -> real, a: real, b: real, c: real)
    ensures Integral(f, [a, b, c]) == Trapezoid(f, a, b) + Trapezoid(f, b, c)
  {
    IntegralOfOneMore(f, [a], b);
    IntegralOfOneMore(f, [a, b], c);
    assert [a] + [b] == [a, b] && [a, b] + [c] == [a, b, c];
  }

  lemma BreaksOfTwo(pts: seq<Sample>, horizon: real)
    requires |pts| == 2 && 0.0 < pts[0].at == pts[1].at < horizon
    ensures Breaks(pts, horizon) == [0.0, pts[0].at, horizon]
  {
    assert pts[..1][..0] == [] && Interior([], horizon) == [];
    assert Interior(pts[..1], horizon) == [pts[0].at];
  }

  lemma SortOfTwo(p: Sample, q: Sample)
    requires Precedes(p, q)
    ensures Sort([p, q]) == [p, q]
  {
    StableSort.SortKeepsOrdered([p, q], Precedes);
  }

  /** A forecast whose two samples disagree: the result is 2.5, with one more breakpoint 3.75. */
  lemma JumpedMeanMoves()
    ensures Mean(JUMPED, 10.0, 0.0) == 2.5 && Sort(JUMPED) == JUMPED
    ensures RefinedMean(JUMPED, 10.0, [7.5]) == 3.75
  {
    SortOfTwo(JUMPED[0], JUMPED[1]);
    BreaksOfTwo(JUMPED, 10.0);
    var f := Curve(JUMPED);
    assert f(0.0) == 0.0 && f(5.0) == 0.0 && f(7.5) == 10.0 && f(10.0) == 10.0 by {
      CurveOfTwo(JUMPED, 0.0);
      CurveOfTwo(JUMPED, 5.0);
      CurveOfTwo(JUMPED, 7.5);
      CurveOfTwo(JUMPED, 10.0);
    }
    SumOfThree(f, 0.0, 5.0, 10.0);
    var xs := Breaks(JUMPED, 10.0);
    assert PutAll(xs, [7.5]) == Put(PutAll(xs, []), 7.5);
    PutInGap(f, xs, 1, 7.5);
  }
}
