/** The classic pointer acceleration of input_mac_mouse_legacy.c: two curves are merged into
    a list of line segments with a sentinel, and ScaleAxes searches that list.

    Numbers are 16.16 fixed point.  The casts of IOFixedMultiply and IOFixedDivide to 32 bits
    wrap; sums and differences are exact, since C leaves their overflow undefined.  Curves
    come as sequences of points, not as a big-endian table. */
module Acceleration {
  import opened SegmentMerge

  const MAX_DEVICE_THRESHOLD := 0x7fffffff

  predicate IsInt32(x: int) { -0x8000_0000 <= x < 0x8000_0000 }

  /** A cast to a 32-bit signed integer. */
  function Int32(x: int): (r: int)
    ensures IsInt32(r) && (IsInt32(x) ==> r == x) && (x - r) % 0x1_0000_0000 == 0
  {
    (x + 0x8000_0000) % 0x1_0000_0000 - 0x8000_0000
  }

  /** `>> 16` on a signed 64-bit product. */
  function FixedMultiply(a: int, b: int): int { Int32(a * b / 0x1_0000) }

  function Abs(x: int): nat { if x < 0 then -x else x }

  function Quotient(a: nat, b: nat): nat
    requires b > 0
  {
    if a < b then 0 else 1 + Quotient(a - b, b)
  }

  /** Division in C truncates towards zero. */
  function FixedDivide(a: int, b: int): int
    requires b != 0
  {
    var q: int := Quotient(Abs(a * 0x1_0000), Abs(b));
    Int32(if (a < 0) == (b < 0) then q else -q)
  }

  function Slope(from: Point, to: Point): int {
    if to.x == from.x then 0 else FixedDivide(to.y - from.y, to.x - from.x)
  }

  /** Where the line p1-p2 meets `x`. */
  function Height(p1: Point, p2: Point, x: int): int {
    var slope := Slope(p1, p2);
    p1.y - FixedMultiply(slope, p1.x) + FixedMultiply(slope, x)
  }

  /** The line p1-p2 at x3 and the point there, moved towards the higher curve. */
  function Interpolate(t: Turn, scale: int): int {
    var y := Height(t.p1, t.p2, t.p3.x);
    if t.lower then t.p3.y - FixedMultiply(scale, t.p3.y - y)
    else y + FixedMultiply(scale, t.p3.y - y)
  }

  /** `scale` between the curves, devScale and crsrScale. */
  datatype Scales = Scales(between: int, dev: int, cursor: int)

  function ScaledPoint(s: Scales, t: Turn): Point {
    Point(FixedMultiply(s.dev, t.p3.x), FixedMultiply(s.cursor, Interpolate(t, s.between)))
  }

  datatype Segment = Segment(devUnits: int, slope: int, intercept: int)

  /** The segment that ends at `to`; the last one has no upper end. */
  function LineTo(from: Point, to: Point, last: bool): Segment {
    var slope := Slope(from, to);
    Segment(if last then MAX_DEVICE_THRESHOLD else to.x, slope, to.y - FixedMultiply(slope, to.x))
  }

  /** The scaled point that turn `n` starts from. */
  function PointBefore(s: Scales, turns: seq<Turn>, n: nat): Point
    requires n <= |turns|
  {
    if n == 0 then Origin else ScaledPoint(s, turns[n - 1])
  }

  function SegmentAt(s: Scales, turns: seq<Turn>, n: nat): Segment
    requires n < |turns|
  {
    LineTo(PointBefore(s, turns, n), ScaledPoint(s, turns[n]), n + 1 == |turns|)
  }

  function SegmentsOf(s: Scales, turns: seq<Turn>): (r: seq<Segment>)
    ensures |r| == |turns| && forall k :: 0 <= k < |r| ==> r[k] == SegmentAt(s, turns, k)
  {
    seq(|turns|, k requires 0 <= k < |turns| => SegmentAt(s, turns, k))
  }

  // ----- main results

  /** No product of the device scale with a point of the curve leaves 32 bits. */
  ghost predicate NoOverflow(ps: seq<Point>, dev: int) {
    forall k :: 0 <= k < |ps| ==> IsInt32(dev * ps[k].x / 0x1_0000)
  }

  lemma ScaleMonotone(dev: int, a: int, b: int)
    requires dev >= 0 && a <= b && IsInt32(dev * a / 0x1_0000) && IsInt32(dev * b / 0x1_0000)
    ensures FixedMultiply(dev, a) <= FixedMultiply(dev, b)
  {
    assert dev * b - dev * a == dev * (b - a) >= 0;
  }

  ghost predicate RisingTo(segments: seq<Segment>, top: int) {
    && segments != [] && segments[|segments| - 1].devUnits == top
    && forall i, j :: 0 <= i < j < |segments| ==> segments[i].devUnits <= segments[j].devUnits
  }

  lemma SegmentsRise(s: Scales, turns: seq<Turn>)
    requires turns != [] && s.dev >= 0 && SortedX(Points(turns)) && NoOverflow(Points(turns), s.dev)
    ensures RisingTo(SegmentsOf(s, turns), MAX_DEVICE_THRESHOLD)
  {
    var segments, ps := SegmentsOf(s, turns), Points(turns);
    forall i, j | 0 <= i < j < |segments| ensures segments[i].devUnits <= segments[j].devUnits {
      assert IsInt32(s.dev * ps[i].x / 0x1_0000) && IsInt32(s.dev * ps[j].x / 0x1_0000);
      ScaleMonotone(s.dev, ps[i].x, ps[j].x);
    }
  }

  lemma TakenFrom(low: seq<Point>, high: seq<Point>, dev: int)
    requires high != [] && NoOverflow(low, dev) && NoOverflow(high, dev)
    ensures NoOverflow(Points(Turns(low, high, Begin)), dev)
  {
    var ps := Points(Turns(low, high, Begin));
    TakesAll(low, high, Begin);
    assert low[0..] == low && high[0..] == high;
    forall k | 0 <= k < |ps| ensures IsInt32(dev * ps[k].x / 0x1_0000) {
      assert ps[k] in multiset(ps);
      assert ps[k] in low || ps[k] in high;
    }
  }

  /** For sorted curves with at least one high point the merge makes exactly one segment per
      point, at most the allocated number, with thresholds that never fall and the largest
      possible one last. */
  lemma MergeExact(low: seq<Point>, high: seq<Point>, s: Scales)
    requires high != [] && SortedX(low) && SortedX(high)
    requires s.dev >= 0 && NoOverflow(low, s.dev) && NoOverflow(high, s.dev)
    ensures |SegmentsOf(s, Turns(low, high, Begin))| == |low| + |high| <= 2 * (if |low| > |high| then |low| else |high|)
    ensures RisingTo(SegmentsOf(s, Turns(low, high, Begin)), MAX_DEVICE_THRESHOLD)
  {
    TakesInOrder(low, high, Begin);
    TakenFrom(low, high, s.dev);
    SegmentsRise(s, Turns(low, high, Begin));
  }

  lemma FixedCommutes(a: int, b: int)
    ensures FixedMultiply(a, b) == FixedMultiply(b, a)
  {
    assert a * b == b * a;
  }

  /** At the end it was made from, the fixed-point line gives exactly that point. */
  lemma LineHitsEnd(from: Point, to: Point)
    ensures var l := LineTo(from, to, false);
      l.devUnits == to.x && l.intercept + FixedMultiply(l.devUnits, l.slope) == to.y
  {
    FixedCommutes(to.x, Slope(from, to));
  }

  lemma {:induction false} QuotientBounds(a: nat, b: nat)
    requires b > 0
    ensures Quotient(a, b) * b <= a < (Quotient(a, b) + 1) * b
  {
    if a >= b { QuotientBounds(a - b, b); }
  }

  lemma {:induction false} QuotientIs(a: nat, b: nat, q: nat)
    requires b > 0 && a == q * b
    ensures Quotient(a, b) == q
  {
    if q > 0 {
      assert a - b == (q - 1) * b;
      QuotientIs(a - b, b, q - 1);
    }
  }

  /** What ScaleAxes makes of a segment at a magnitude. */
  function Speed(l: Segment, mag: int): int {
    l.intercept + FixedMultiply(mag, l.slope)
  }

  /** The quotient is that of a * 0x1_0000 and b, cut towards zero. */
  lemma DivideTruncates(a: int, b: int)
    requires b != 0 && Quotient(Abs(a * 0x1_0000), Abs(b)) < 0x8000_0000
    ensures var q := FixedDivide(a, b);
      && Abs(q) * Abs(b) <= 0x1_0000 * Abs(a) < (Abs(q) + 1) * Abs(b)
      && (q > 0 ==> (a < 0) == (b < 0)) && (q < 0 ==> (a < 0) != (b < 0))
  {
    QuotientBounds(Abs(a * 0x1_0000), Abs(b));
  }

  /** The quotient of the slope is not cut by its cast. */
  predicate SlopeFits(from: Point, to: Point)
    requires from.x < to.x
  {
    var q: int := Quotient(Abs((to.y - from.y) * 0x1_0000), to.x - from.x);
    IsInt32(if to.y - from.y < 0 then -q else q)
  }

  /** No cast in making a line and taking its ends cuts anything.  A vertical one has slope
      zero, without a cast. */
  predicate LineFits(from: Point, to: Point) {
    from.x < to.x ==>
      && SlopeFits(from, to)
      && IsInt32(Slope(from, to) * from.x / 0x1_0000) && IsInt32(Slope(from, to) * to.x / 0x1_0000)
  }

  /** The slope is off by less than one unit. */
  lemma SlopeError(from: Point, to: Point)
    requires from.x < to.x && SlopeFits(from, to)
    ensures var d := to.x - from.x; -d < Slope(from, to) * d - 0x1_0000 * (to.y - from.y) < d
  {
    var d, e := to.x - from.x, (to.y - from.y) * 0x1_0000;
    var q: int := Quotient(Abs(e), Abs(d));
    QuotientBounds(Abs(e), Abs(d));
    assert (q + 1) * d == q * d + d;
    assert -q * d == -(q * d);
  }

  lemma Floors(u: int, v: int)
    ensures v - u - 0x1_0000 < 0x1_0000 * (v / 0x1_0000 - u / 0x1_0000) < v - u + 0x1_0000
  {}

  /** At its start a line misses the point by less than one unit and the rounding of the slope
      over its length.  A vertical line is its end point's height throughout. */
  lemma LineMeetsStart(from: Point, to: Point, last: bool)
    requires from.x <= to.x && LineFits(from, to)
    ensures var v := Speed(LineTo(from, to, last), from.x);
      if from.x == to.x then v == to.y else 0x1_0000 * Abs(v - from.y) < to.x - from.x + 0x1_0000
  {
    var s := Slope(from, to);
    FixedCommutes(from.x, s);
    if from.x < to.x {
      SlopeError(from, to);
      Floors(s * from.x, s * to.x);
      assert s * to.x - s * from.x == s * (to.x - from.x);
    }
  }

  /** Where segment `n` takes over from segment `m - 1`, the turns between having the same
      scaled X, the speed changes by what the scaled curve rises at that X, up to less than one
      unit and the rounding of the slope.  So the speed curve jumps exactly as the scaled points
      do.  A vertical segment `n` jumps to its own end. */
  lemma JumpExactly(s: Scales, turns: seq<Turn>, m: nat, n: nat)
    requires 0 < m <= n < |turns|
    ensures ScaledPoint(s, turns[m - 1]).x == ScaledPoint(s, turns[n - 1]).x <= ScaledPoint(s, turns[n]).x ==>
      Jumps(s, turns, ScaledPoint(s, turns[m - 1]).x, m - 1, n)
  {
    LineHitsEnd(PointBefore(s, turns, m - 1), ScaledPoint(s, turns[m - 1]));
    if PointBefore(s, turns, n).x <= ScaledPoint(s, turns[n]).x && LineFits(PointBefore(s, turns, n), ScaledPoint(s, turns[n])) {
      LineMeetsStart(PointBefore(s, turns, n), ScaledPoint(s, turns[n]), n + 1 == |turns|);
    }
  }

  /** The segment that the search stops at. */
  ghost predicate IsFound(segments: seq<Segment>, mag: int, k: nat) {
    k < |segments| && mag <= segments[k].devUnits && forall i :: 0 <= i < k ==> segments[i].devUnits < mag
  }

  lemma FoundAround(segments: seq<Segment>, x: int, k: nat, n: nat, i: nat)
    requires RisingTo(segments, MAX_DEVICE_THRESHOLD) && x < MAX_DEVICE_THRESHOLD
    requires i < |segments| && segments[i].devUnits == x
    requires IsFound(segments, x, k) && IsFound(segments, x + 1, n)
    ensures k <= i < n && segments[k].devUnits == x && segments[n - 1].devUnits == x
  {
    assert k <= i;
    assert i < n;
    assert segments[k].devUnits <= segments[i].devUnits;
    assert segments[i].devUnits <= segments[n - 1].devUnits < x + 1;
  }

  lemma NotBackwards(s: Scales, turns: seq<Turn>, n: nat)
    requires 0 < n < |turns| && s.dev >= 0 && SortedX(Points(turns)) && NoOverflow(Points(turns), s.dev)
    ensures ScaledPoint(s, turns[n - 1]).x <= ScaledPoint(s, turns[n]).x
  {
    var ps := Points(turns);
    assert IsInt32(s.dev * ps[n - 1].x / 0x1_0000) && IsInt32(s.dev * ps[n].x / 0x1_0000);
    ScaleMonotone(s.dev, ps[n - 1].x, ps[n].x);
  }

  /** For sorted curves: at a threshold `x` the search stops at the first segment that has it,
      just above at the first that has a larger one, and the points that end the former and the
      segment before the latter both have that X.  The speed jumps there by as much as the scaled
      points rise between the two, rounding apart; if the latter is the last segment and vertical
      as well, to its end. */
  lemma JumpAtThreshold(low: seq<Point>, high: seq<Point>, s: Scales, x: int, k: nat, n: nat)
    requires high != [] && SortedX(low) && SortedX(high)
    requires s.dev >= 0 && NoOverflow(low, s.dev) && NoOverflow(high, s.dev)
    ensures var turns := Turns(low, high, Begin);
      SwitchesAt(SegmentsOf(s, turns), x, k, n) ==> k < n < |turns| && Jumps(s, turns, x, k, n)
  {
    var turns := Turns(low, high, Begin);
    if SwitchesAt(SegmentsOf(s, turns), x, k, n) {
      MergeExact(low, high, s);
      var i :| 0 <= i < |turns| && SegmentsOf(s, turns)[i].devUnits == x;
      FoundAround(SegmentsOf(s, turns), x, k, n, i);
      TakesInOrder(low, high, Begin);
      TakenFrom(low, high, s.dev);
      NotBackwards(s, turns, n);
      JumpExactly(s, turns, k + 1, n);
    }
  }

  /** `x` is a threshold; the search goes from segment `k` at that magnitude to segment `n` just
      above it. */
  ghost predicate SwitchesAt(segments: seq<Segment>, x: int, k: nat, n: nat) {
    && x < MAX_DEVICE_THRESHOLD && IsFound(segments, x, k) && IsFound(segments, x + 1, n)
    && exists i :: 0 <= i < |segments| && segments[i].devUnits == x
  }

  /** At `x`, where segment `n` takes over from segment `k`. */
  ghost predicate Jumps(s: Scales, turns: seq<Turn>, x: int, k: nat, n: nat)
    requires k < n < |turns|
  {
    var before, from, to := ScaledPoint(s, turns[k]), ScaledPoint(s, turns[n - 1]), ScaledPoint(s, turns[n]);
    var gap := Speed(SegmentsOf(s, turns)[n], x) - Speed(SegmentsOf(s, turns)[k], x);
    && before.x == from.x == x <= to.x
    && (LineFits(from, to) ==>
          if x == to.x then gap == to.y - before.y
          else 0x1_0000 * Abs(gap - (from.y - before.y)) < to.x - x + 0x1_0000)
  }

  // ----- blending the curves

  /** What the turn has on the lower curve at its X: the point it took, or the line. */
  function OnLower(t: Turn): int {
    if t.lower then t.p3.y else Height(t.p1, t.p2, t.p3.x)
  }

  function OnHigher(t: Turn): int {
    if t.lower then Height(t.p1, t.p2, t.p3.x) else t.p3.y
  }

  ghost predicate BetweenBoth(v: int, a: int, b: int) {
    if a <= b then a <= v <= b else b <= v <= a
  }

  lemma PartOf(scale: int, d: int)
    requires 0 <= scale <= 0x1_0000 && IsInt32(d)
    ensures FixedMultiply(scale, d) == scale * d / 0x1_0000 && BetweenBoth(FixedMultiply(scale, d), 0, d)
    ensures scale * d - 0x1_0000 < 0x1_0000 * FixedMultiply(scale, d) <= scale * d
  {
    Scaled(0, scale, d);
    Scaled(scale, 0x1_0000, d);
    Floored(0, scale * d);
    Floored(scale * d, 0);
    Floored(scale * d, 0x1_0000 * d);
    Floored(0x1_0000 * d, scale * d);
  }

  /** `v` is the lower curve at scale 0 and the higher one at scale 1; in between it is between
      them, and as far from the lower one as the scale says, up to less than one unit. */
  ghost predicate Blended(t: Turn, scale: int, v: int) {
    var lo, hi := OnLower(t), OnHigher(t);
    && (scale == 0 ==> v == lo)
    && (scale == 0x1_0000 ==> v == hi)
    && BetweenBoth(v, lo, hi)
    && -0x1_0000 < 0x1_0000 * (v - lo) - scale * (hi - lo) < 0x1_0000
  }

  lemma Blends(t: Turn, scale: int)
    requires 0 <= scale <= 0x1_0000 && IsInt32(t.p3.y - Height(t.p1, t.p2, t.p3.x))
    ensures Blended(t, scale, Interpolate(t, scale))
  {
    var d := t.p3.y - Height(t.p1, t.p2, t.p3.x);
    PartOf(scale, d);
    assert scale * (OnHigher(t) - OnLower(t)) == if t.lower then -(scale * d) else scale * d;
  }

  lemma PartMonotone(scale: int, scale': int, d: int)
    requires 0 <= scale <= scale' <= 0x1_0000 && IsInt32(d)
    ensures BetweenBoth(FixedMultiply(scale', d), FixedMultiply(scale, d), d)
  {
    PartOf(scale, d);
    PartOf(scale', d);
    Scaled(scale, scale', d);
    Floored(scale * d, scale' * d);
    Floored(scale' * d, scale * d);
  }

  lemma Scaled(a: int, b: int, d: int)
    requires a <= b
    ensures if d >= 0 then a * d <= b * d else a * d >= b * d
  {}

  lemma Floored(u: int, v: int)
    ensures u <= v ==> u / 0x1_0000 <= v / 0x1_0000
  {}

  /** With a larger scale it is nearer to the higher curve. */
  lemma BlendsMonotone(t: Turn, scale: int, scale': int)
    requires 0 <= scale <= scale' <= 0x1_0000 && IsInt32(t.p3.y - Height(t.p1, t.p2, t.p3.x))
    ensures BetweenBoth(Interpolate(t, scale'), Interpolate(t, scale), OnHigher(t))
  {
    PartMonotone(scale, scale', t.p3.y - Height(t.p1, t.p2, t.p3.x));
  }

  /** The height is that of the straight line through both ends, up to less than one unit and the
      rounding of the slope; at the near end it is exact, and level for a vertical line. */
  lemma HeightOnLine(p1: Point, p2: Point, x: int)
    requires p1.x <= p2.x && LineFits(p1, p2) && IsInt32(Slope(p1, p2) * x / 0x1_0000)
    ensures x == p1.x || p1.x == p2.x ==> Height(p1, p2, x) == p1.y
    ensures p1.x < p2.x ==>
      var d := p2.x - p1.x;
      Abs(0x1_0000 * d * (Height(p1, p2, x) - p1.y) - 0x1_0000 * (p2.y - p1.y) * (x - p1.x)) < d * (0x1_0000 + Abs(x - p1.x)) + 1
  {
    if p1.x < p2.x {
      SlopeError(p1, p2);
      Rise(p1, p2, x);
      LineError(p2.x - p1.x, Slope(p1, p2), x - p1.x, p2.y - p1.y, Height(p1, p2, x) - p1.y);
    }
  }

  lemma Rise(p1: Point, p2: Point, x: int)
    requires IsInt32(Slope(p1, p2) * p1.x / 0x1_0000) && IsInt32(Slope(p1, p2) * x / 0x1_0000)
    ensures var s, k, h := Slope(p1, p2), x - p1.x, Height(p1, p2, x) - p1.y;
      s * k - 0x1_0000 < 0x1_0000 * h < s * k + 0x1_0000
  {
    var s := Slope(p1, p2);
    Floors(s * p1.x, s * x);
    Distribute(s, x, p1.x);
  }

  lemma LineError(d: int, s: int, k: int, e: int, h: int)
    requires d > 0 && -d < s * d - 0x1_0000 * e < d
    requires s * k - 0x1_0000 < 0x1_0000 * h < s * k + 0x1_0000
    ensures Abs(0x1_0000 * d * h - 0x1_0000 * e * k) < d * (0x1_0000 + Abs(k)) + 1
  {
    var a, b := 0x1_0000 * h - s * k, s * d - 0x1_0000 * e;
    Distribute(d, 0x1_0000 * h, s * k);
    Distribute(k, s * d, 0x1_0000 * e);
    Rotate(d, s, k);
    Rotate(d, 0x1_0000, h);
    Rotate(k, 0x1_0000, e);
    ProductBound(d, a, 0x1_0000);
    ProductBound(k, b, d);
  }

  lemma Distribute(a: int, b: int, c: int)
    ensures a * (b - c) == a * b - a * c
  {}

  lemma Rotate(a: int, b: int, c: int)
    ensures a * (b * c) == b * a * c == b * c * a == c * (b * a)
  {}

  lemma ProductBound(k: int, b: int, d: int)
    requires -d < b < d
    ensures Abs(k * b) <= d * Abs(k)
  {
    if k >= 0 {
      assert k * b <= k * d && k * b >= k * -d;
    } else {
      assert -k * b <= -k * d && -k * b >= -k * -d;
    }
  }

  lemma SpeedAtEnd(s: Scales, turns: seq<Turn>, n: nat)
    requires n + 1 < |turns|
    ensures var l := SegmentsOf(s, turns)[n];
      && l.devUnits == FixedMultiply(s.dev, turns[n].p3.x)
      && Speed(l, l.devUnits) == FixedMultiply(s.cursor, Interpolate(turns[n], s.between))
  {
    LineHitsEnd(PointBefore(s, turns, n), ScaledPoint(s, turns[n]));
  }

  /** For every point the merge takes: where its segment ends, the speed is the cursor scale times
      a height blended from the two curves at its X, the one it was taken from and the line of the
      other. */
  lemma SpeedsBlend(s: Scales, turns: seq<Turn>, n: nat)
    requires n + 1 < |turns| && 0 <= s.between <= 0x1_0000
    ensures SegmentsOf(s, turns)[n].devUnits == FixedMultiply(s.dev, turns[n].p3.x)
    ensures IsInt32(turns[n].p3.y - Height(turns[n].p1, turns[n].p2, turns[n].p3.x)) ==>
      exists v :: Blended(turns[n], s.between, v)
        && Speed(SegmentsOf(s, turns)[n], SegmentsOf(s, turns)[n].devUnits) == FixedMultiply(s.cursor, v)
  {
    SpeedAtEnd(s, turns, n);
    var t := turns[n];
    if IsInt32(t.p3.y - Height(t.p1, t.p2, t.p3.x)) {
      Blends(t, s.between);
      var v := Interpolate(t, s.between);
      assert Blended(t, s.between, v);
    }
  }

  // ----- a jump

  const One := 0x1_0000
  const LowExample := [Point(One, One), Point(3 * One, 9 * One)]
  const HighExample := [Point(One, 3 * One), Point(3 * One, 27 * One)]
  const HalfWay := Scales(0x8000, One, One)

  lemma ExampleTurns()
    ensures Turns(LowExample, HighExample, Begin) ==
      [Turn(Origin, Point(One, 3 * One), Point(One, One), true),
       Turn(Origin, Point(3 * One, 9 * One), Point(One, 3 * One), false),
       Turn(Point(One, 3 * One), Point(3 * One, 27 * One), Point(3 * One, 9 * One), true),
       TurnOf(LowExample, HighExample, CursorAt(LowExample, HighExample, 3))]
  {
    var turns := Turns(LowExample, HighExample, Begin);
    TurnAt(LowExample, HighExample, 0);
    TurnAt(LowExample, HighExample, 1);
    TurnAt(LowExample, HighExample, 2);
    TurnAt(LowExample, HighExample, 3);
    assert CursorAt(LowExample, HighExample, 1) == Cursor(1, 0, Origin, Origin);
    assert CursorAt(LowExample, HighExample, 2).lo == 1 && CursorAt(LowExample, HighExample, 2).hi == 1;
  }

  /** The second turn compares the high point at 1 with the line from the origin to (3, 9), although
      the low points around it are (1, 1) and (3, 9). */
  lemma NotTheNeighbour()
    ensures var c, t := CursorAt(LowExample, HighExample, 1), Turns(LowExample, HighExample, Begin)[1];
      && t.p3 == Point(One, 3 * One) && t.p1 == Origin && t.p2 == Point(3 * One, 9 * One)
      && Both(LowExample, HighExample, c) && Neighbour(LowExample, HighExample, c) == Point(One, One)
  {
    ExampleTurns();
    assert CursorAt(LowExample, HighExample, 1) == Cursor(1, 0, Origin, Origin);
  }

  lemma ExampleLines()
    ensures Slope(Origin, Point(One, 3 * One)) == 3 * One
    ensures Slope(Origin, Point(3 * One, 9 * One)) == 3 * One
    ensures Slope(Point(One, 3 * One), Point(3 * One, 27 * One)) == 12 * One
    ensures Slope(Point(One, 3 * One), Point(3 * One, 18 * One)) == 15 * 0x8000
  {
    QuotientIs(3 * One * One, One, 3 * One);
    QuotientIs(9 * One * One, 3 * One, 3 * One);
    QuotientIs(24 * One * One, 2 * One, 12 * One);
    QuotientIs(15 * One * One, 2 * One, 15 * 0x8000);
  }

  lemma ExamplePoint0()
    ensures ScaledPoint(HalfWay, Turn(Origin, Point(One, 3 * One), Point(One, One), true)) == Point(One, 2 * One)
  {
    ExampleLines();
  }

  lemma ExamplePoint1()
    ensures ScaledPoint(HalfWay, Turn(Origin, Point(3 * One, 9 * One), Point(One, 3 * One), false)) == Point(One, 3 * One)
  {
    ExampleLines();
  }

  lemma ExamplePoint2()
    ensures ScaledPoint(HalfWay, Turn(Point(One, 3 * One), Point(3 * One, 27 * One), Point(3 * One, 9 * One), true))
            == Point(3 * One, 18 * One)
  {
    ExampleLines();
  }

  lemma ExamplePoints()
    ensures var turns := Turns(LowExample, HighExample, Begin);
      && |turns| == 4
      && ScaledPoint(HalfWay, turns[0]) == Point(One, 2 * One)
      && ScaledPoint(HalfWay, turns[1]) == Point(One, 3 * One)
      && ScaledPoint(HalfWay, turns[2]) == Point(3 * One, 18 * One)
  {
    ExampleTurns();
    ExamplePoint0();
    ExamplePoint1();
    ExamplePoint2();
  }

  lemma ExampleSegments()
    ensures var segments := SegmentsOf(HalfWay, Turns(LowExample, HighExample, Begin));
      && |segments| == 4
      && segments[0] == LineTo(Origin, Point(One, 2 * One), false)
      && segments[1] == LineTo(Point(One, 2 * One), Point(One, 3 * One), false)
      && segments[2] == LineTo(Point(One, 3 * One), Point(3 * One, 18 * One), false)
  {
    ExamplePoints();
  }

  lemma ExampleSpeeds()
    ensures Speed(LineTo(Origin, Point(One, 2 * One), false), One) == 2 * One
    ensures Speed(LineTo(Point(One, 3 * One), Point(3 * One, 18 * One), false), One) == 3 * One
  {
    LineHitsEnd(Origin, Point(One, 2 * One));
    ExampleLines();
  }

  lemma ExampleFits()
    ensures LineFits(Origin, Point(One, 2 * One)) && LineFits(Point(One, 3 * One), Point(3 * One, 18 * One))
  {
    QuotientIs(2 * One * One, One, 2 * One);
    QuotientIs(15 * One * One, 2 * One, 15 * 0x8000);
    ExampleLines();
  }

  lemma FoundFirst(segments: seq<Segment>, x: int)
    requires |segments| >= 3 && segments[0].devUnits == segments[1].devUnits == x < segments[2].devUnits
    ensures IsFound(segments, x, 0) && IsFound(segments, x + 1, 2)
  {}

  /** Two sorted curves that both have a point at 1: at magnitude 1 the speed is 2, just above
      it 3, although no cast cuts anything. */
  lemma CurveJumps()
    ensures SortedX(LowExample) && SortedX(HighExample)
    ensures NoOverflow(LowExample, One) && NoOverflow(HighExample, One)
    ensures LineFits(Origin, Point(One, 2 * One)) && LineFits(Point(One, 3 * One), Point(3 * One, 18 * One))
    ensures var segments := SegmentsOf(HalfWay, Turns(LowExample, HighExample, Begin));
      && IsFound(segments, One, 0) && IsFound(segments, One + 1, 2)
      && Speed(segments[0], One) == 2 * One && Speed(segments[2], One) == 3 * One
  {
    ExampleSegments();
    ExampleSpeeds();
    ExampleFits();
    FoundFirst(SegmentsOf(HalfWay, Turns(LowExample, HighExample, Begin)), One);
  }

  // ----- the loops

  /** The points and line ends of one turn of the merging loop. */
  method NextTurn(low: seq<Point>, high: seq<Point>, i: nat, j: nat, p1: Point, prev: Point)
    returns (i': nat, j': nat, p1': Point, prev': Point, t: Turn)
    requires Running(low, high, Cursor(i, j, p1, prev))
    ensures Cursor(i', j', p1', prev') == Advance(low, high, Cursor(i, j, p1, prev))
    ensures t == TurnOf(low, high, Cursor(i, j, p1, prev))
  {
    var lower := i < |low| && (j == |high| || LowAt(low, high, i).x <= HighAt(high, j).x);
    var p2 := if lower then HighAt(high, j) else LowAt(low, high, i);
    var p3 := if lower then low[i] else high[j];
    if lower { i', j' := i + 1, j; } else { i', j' := i, j + 1; }
    t := Turn(p1, p2, p3, lower);
    if i' < |low| && j' < |high| {
      if low[i'].x > high[j'].x { p1', prev' := p1, p1; } else { p1', prev' := p3, p1; }
    } else {
      p1', prev' := prev, p1;
    }
  }

  /** Convert one turn to a segment. */
  method Put(segments: array<Segment>, n: nat, s: Scales, from: Point, t: Turn, last: bool, ghost turns: seq<Turn>)
    returns (to: Point)
    requires n < |turns| <= segments.Length && t == turns[n] && from == PointBefore(s, turns, n)
    requires last <==> n + 1 == |turns|
    requires segments[..n] == SegmentsOf(s, turns)[..n]
    modifies segments
    ensures to == PointBefore(s, turns, n + 1)
    ensures segments[..n + 1] == SegmentsOf(s, turns)[..n + 1]
  {
    to := Point(FixedMultiply(s.dev, t.p3.x), FixedMultiply(s.cursor, Interpolate(t, s.between)));
    segments[n] := LineTo(from, to, last);
  }

  /** The merging loop of SetupAcceleration, into an array of the size it allocates. */
  method MergeCurves(low: seq<Point>, high: seq<Point>, s: Scales) returns (segments: array<Segment>)
    requires high != []
    ensures segments.Length == 2 * (if |low| > |high| then |low| else |high|)
    ensures |low| + |high| <= segments.Length
    ensures segments[..|low| + |high|] == SegmentsOf(s, Turns(low, high, Begin))
    ensures fresh(segments)
  {
    var segCount := if |low| > |high| then |low| else |high|;
    segCount := segCount * 2;
    segments := new Segment[segCount](_ => Segment(0, 0, 0));
    var i: nat, j: nat, n: nat := 0, 0, 0;
    var p1, prev, from := Origin, Origin, Origin;
    ghost var turns := Turns(low, high, Begin);
    while i < |low| || j < |high|
      invariant Merging(low, high, s, turns, Cursor(i, j, p1, prev), n, from, segments[..])
      decreases |turns| - n
    {
      i, j, p1, prev, from := MergeTurn(low, high, s, segments, i, j, p1, prev, n, from, turns);
      n := n + 1;
    }
  }

  /** The state of the merging loop after `n` turns. */
  ghost predicate Merging(low: seq<Point>, high: seq<Point>, s: Scales, turns: seq<Turn>, c: Cursor, n: nat,
                          from: Point, segments: seq<Segment>) {
    && high != [] && turns == Turns(low, high, Begin) && n <= |turns| <= |segments|
    && c == CursorAt(low, high, n) && from == PointBefore(s, turns, n)
    && segments[..n] == SegmentsOf(s, turns)[..n]
  }

  /** One turn of the merging loop. */
  method MergeTurn(low: seq<Point>, high: seq<Point>, s: Scales, segments: array<Segment>, i: nat, j: nat,
               p1: Point, prev: Point, n: nat, from: Point, ghost turns: seq<Turn>)
    returns (i': nat, j': nat, p1': Point, prev': Point, to: Point)
    requires Merging(low, high, s, turns, Cursor(i, j, p1, prev), n, from, segments[..]) && n < |turns|
    modifies segments
    ensures Merging(low, high, s, turns, Cursor(i', j', p1', prev'), n + 1, to, segments[..])
  {
    TurnAt(low, high, n);
    var t;
    i', j', p1', prev', t := NextTurn(low, high, i, j, p1, prev);
    to := Put(segments, n, s, from, t, !(i' < |low| || j' < |high|), turns);
  }

  /** The search of ScaleAxes stops inside the filled part, at the first segment that reaches
      the magnitude. */
  method FindSegment(segments: array<Segment>, mag: int, ghost filled: nat) returns (k: nat)
    requires IsInt32(mag) && 0 < filled <= segments.Length && segments[filled - 1].devUnits == MAX_DEVICE_THRESHOLD
    ensures k < filled && mag <= segments[k].devUnits
    ensures forall i :: 0 <= i < k ==> segments[i].devUnits < mag
  {
    k := 0;
    while mag > segments[k].devUnits
      invariant k < filled
      invariant forall i :: 0 <= i < k ==> segments[i].devUnits < mag
      decreases filled - k
    {
      k := k + 1;
    }
  }

  /** Among the segments that reach the magnitude, one with the lowest threshold. */
  ghost predicate Covers(segments: seq<Segment>, mag: int, segment: Segment) {
    && segment in segments && mag <= segment.devUnits
    && forall i :: 0 <= i < |segments| && mag <= segments[i].devUnits ==> segment.devUnits <= segments[i].devUnits
  }

  method FindLowest(segments: array<Segment>, mag: int, ghost spec: seq<Segment>) returns (segment: Segment)
    requires IsInt32(mag) && |spec| <= segments.Length && segments[..|spec|] == spec && RisingTo(spec, MAX_DEVICE_THRESHOLD)
    ensures Covers(spec, mag, segment)
  {
    assert segments[|spec| - 1] == spec[|spec| - 1];
    var k := FindSegment(segments, mag, |spec|);
    segment := segments[k];
    assert segment == spec[k];
    assert forall i :: 0 <= i < |spec| ==> spec[i] == segments[i];
  }

  /** Setting up and searching together, for any magnitude. */
  method Lookup(low: seq<Point>, high: seq<Point>, s: Scales, mag: int) returns (segment: Segment)
    requires high != [] && SortedX(low) && SortedX(high) && IsInt32(mag)
    requires s.dev >= 0 && NoOverflow(low, s.dev) && NoOverflow(high, s.dev)
    ensures Covers(SegmentsOf(s, Turns(low, high, Begin)), mag, segment)
  {
    MergeExact(low, high, s);
    var segments := MergeCurves(low, high, s);
    segment := FindLowest(segments, mag, SegmentsOf(s, Turns(low, high, Begin)));
  }
}
