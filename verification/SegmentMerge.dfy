/** The merge in SetupAcceleration: which point each turn of its loop takes, and which line
    ends it works with.  What is computed from them is in module Acceleration. */
module SegmentMerge {

  datatype Point = Point(x: int, y: int)

  /** One turn: the line p1-p2 of one curve, and the point p3 taken from the other. */
  datatype Turn = Turn(p1: Point, p2: Point, p3: Point, lower: bool)

  /** Loop state: points used of each curve, and the two line ends kept from before. */
  datatype Cursor = Cursor(lo: nat, hi: nat, p1: Point, prev: Point)

  const Origin := Point(0, 0)
  const Begin := Cursor(0, 0, Origin, Origin)

  /** lowerX and lowerY: once a curve is used up its last point stays, and without a lower
      curve both tables are the same. */
  function LowAt(low: seq<Point>, high: seq<Point>, lo: nat): Point
    requires high != []
  {
    if low == [] then high[0] else low[if lo < |low| then lo else |low| - 1]
  }

  function HighAt(high: seq<Point>, hi: nat): Point
    requires high != []
  {
    high[if hi < |high| then hi else |high| - 1]
  }

  predicate Within(low: seq<Point>, high: seq<Point>, c: Cursor) {
    high != [] && c.lo <= |low| && c.hi <= |high|
  }

  predicate Running(low: seq<Point>, high: seq<Point>, c: Cursor) {
    Within(low, high, c) && (c.lo < |low| || c.hi < |high|)
  }

  predicate TakesLower(low: seq<Point>, high: seq<Point>, c: Cursor)
    requires Within(low, high, c)
  {
    c.lo < |low| && (c.hi == |high| || low[c.lo].x <= high[c.hi].x)
  }

  function Taken(low: seq<Point>, high: seq<Point>, c: Cursor): Point
    requires Running(low, high, c)
  {
    if TakesLower(low, high, c) then low[c.lo] else high[c.hi]
  }

  function TurnOf(low: seq<Point>, high: seq<Point>, c: Cursor): Turn
    requires Running(low, high, c)
  {
    var lower := TakesLower(low, high, c);
    Turn(c.p1, if lower then HighAt(high, c.hi) else LowAt(low, high, c.lo), Taken(low, high, c), lower)
  }

  /** The points used so far, and `swaplines`. */
  function Advance(low: seq<Point>, high: seq<Point>, c: Cursor): (r: Cursor)
    requires Running(low, high, c)
    ensures Within(low, high, r) && r.lo + r.hi == c.lo + c.hi + 1
  {
    var p3 := Taken(low, high, c);
    var lo := if TakesLower(low, high, c) then c.lo + 1 else c.lo;
    var hi := if TakesLower(low, high, c) then c.hi else c.hi + 1;
    if lo < |low| && hi < |high| then
      if low[lo].x > high[hi].x then Cursor(lo, hi, c.p1, c.p1) else Cursor(lo, hi, p3, c.p1)
    else Cursor(lo, hi, c.prev, c.p1)
  }

  /** The turns taken from here on. */
  function Turns(low: seq<Point>, high: seq<Point>, c: Cursor): (r: seq<Turn>)
    requires Within(low, high, c)
    ensures |r| == |low| + |high| - c.lo - c.hi
    decreases |low| + |high| - c.lo - c.hi
  {
    if Running(low, high, c) then [TurnOf(low, high, c)] + Turns(low, high, Advance(low, high, c)) else []
  }

  function Points(turns: seq<Turn>): (r: seq<Point>)
    ensures |r| == |turns| && forall k :: 0 <= k < |r| ==> r[k] == turns[k].p3
  {
    seq(|turns|, k requires 0 <= k < |turns| => turns[k].p3)
  }

  ghost predicate SortedX(ps: seq<Point>) {
    forall i, j :: 0 <= i < j < |ps| ==> ps[i].x <= ps[j].x
  }

  // ----- a merge

  lemma TakeOne(low: seq<Point>, high: seq<Point>, c: Cursor)
    requires Running(low, high, c)
    ensures var c' := Advance(low, high, c);
      multiset(low[c.lo..]) + multiset(high[c.hi..])
      == multiset{Taken(low, high, c)} + multiset(low[c'.lo..]) + multiset(high[c'.hi..])
  {
    if TakesLower(low, high, c) {
      assert low[c.lo..] == [low[c.lo]] + low[c.lo + 1..];
    } else {
      assert high[c.hi..] == [high[c.hi]] + high[c.hi + 1..];
    }
  }

  lemma PointsStep(low: seq<Point>, high: seq<Point>, c: Cursor)
    requires Running(low, high, c)
    ensures Points(Turns(low, high, c)) == [Taken(low, high, c)] + Points(Turns(low, high, Advance(low, high, c)))
  {}

  /** Every point of both curves is taken exactly once: nothing is lost and nothing invented. */
  lemma {:induction false} TakesAll(low: seq<Point>, high: seq<Point>, c: Cursor)
    requires Within(low, high, c)
    ensures multiset(Points(Turns(low, high, c))) == multiset(low[c.lo..]) + multiset(high[c.hi..])
    decreases |low| + |high| - c.lo - c.hi
  {
    if Running(low, high, c) {
      PointsStep(low, high, c);
      TakesAll(low, high, Advance(low, high, c));
      TakeOne(low, high, c);
    }
  }

  lemma NextIsLater(low: seq<Point>, high: seq<Point>, c: Cursor)
    requires Running(low, high, c) && SortedX(low) && SortedX(high)
    ensures Running(low, high, Advance(low, high, c)) ==>
              Taken(low, high, c).x <= Taken(low, high, Advance(low, high, c)).x
  {}

  /** From sorted curves the points come out sorted, starting with the smallest one left. */
  lemma {:induction false} TakesInOrder(low: seq<Point>, high: seq<Point>, c: Cursor)
    requires Within(low, high, c) && SortedX(low) && SortedX(high)
    ensures SortedX(Points(Turns(low, high, c)))
    ensures Running(low, high, c) ==> forall k :: 0 <= k < |Turns(low, high, c)| ==>
              Taken(low, high, c).x <= Points(Turns(low, high, c))[k].x
    decreases |low| + |high| - c.lo - c.hi
  {
    if Running(low, high, c) {
      PointsStep(low, high, c);
      NextIsLater(low, high, c);
      TakesInOrder(low, high, Advance(low, high, c));
    }
  }

  // ----- from the front

  /** The loop state after `n` turns. */
  function CursorAt(low: seq<Point>, high: seq<Point>, n: nat): (c: Cursor)
    requires high != [] && n <= |low| + |high|
    ensures Within(low, high, c) && c.lo + c.hi == n
  {
    if n == 0 then Begin else Advance(low, high, CursorAt(low, high, n - 1))
  }

  lemma {:induction false} TurnsFrom(low: seq<Point>, high: seq<Point>, n: nat)
    requires high != [] && n <= |low| + |high|
    ensures Turns(low, high, Begin)[n..] == Turns(low, high, CursorAt(low, high, n))
  {
    var turns := Turns(low, high, Begin);
    if n == 0 {
      assert turns[0..] == turns;
    } else {
      TurnsFrom(low, high, n - 1);
      assert turns[n..] == turns[n - 1..][1..];
    }
  }

  lemma TurnAt(low: seq<Point>, high: seq<Point>, n: nat)
    requires high != [] && n < |low| + |high|
    ensures Turns(low, high, Begin)[n] == TurnOf(low, high, CursorAt(low, high, n))
  {
    TurnsFrom(low, high, n);
    assert Turns(low, high, Begin)[n] == Turns(low, high, Begin)[n..][0];
  }

  // ----- which line a taken point is compared with

  /** Both curves still have points. */
  predicate Both(low: seq<Point>, high: seq<Point>, c: Cursor) {
    Within(low, high, c) && c.lo < |low| && c.hi < |high|
  }

  /** The far end of the line is the next point of the other curve, or its last one. */
  lemma FarEnd(low: seq<Point>, high: seq<Point>, n: nat)
    requires high != [] && n < |low| + |high|
    ensures var c, t := CursorAt(low, high, n), Turns(low, high, Begin)[n];
      && t.lower == (c.lo < |low| && (c.hi == |high| || low[c.lo].x <= high[c.hi].x))
      && t.p3 == (if t.lower then low[c.lo] else high[c.hi])
      && (t.lower && c.hi < |high| ==> t.p2 == high[c.hi])
      && (t.lower && c.hi == |high| ==> t.p2 == high[|high| - 1])
      && (!t.lower && c.lo < |low| ==> t.p2 == low[c.lo])
      && (!t.lower && c.lo == |low| > 0 ==> t.p2 == low[|low| - 1])
      && (low == [] ==> t.p2 == high[0])
  {
    TurnAt(low, high, n);
  }

  lemma {:induction false} StepBoth(low: seq<Point>, high: seq<Point>, n: nat)
    requires high != [] && 0 < n <= |low| + |high| && Both(low, high, CursorAt(low, high, n))
    ensures var c, c' := CursorAt(low, high, n - 1), CursorAt(low, high, n);
      && Both(low, high, c)
      && c'.p1 == (if TakesLower(low, high, c') then Taken(low, high, c) else c.p1)
      && (if TakesLower(low, high, c) then c'.lo == c.lo + 1 && c'.hi == c.hi else c'.lo == c.lo && c'.hi == c.hi + 1)
  {
    assert CursorAt(low, high, n) == Advance(low, high, CursorAt(low, high, n - 1));
  }

  /** The near end starts at the origin.  As long as both curves have points it moves to the point
      just taken when a low point is next, and stays where it is when a high one is. */
  lemma {:induction false} NearEnd(low: seq<Point>, high: seq<Point>, n: nat)
    requires high != [] && n < |low| + |high|
    ensures var turns := Turns(low, high, Begin);
      && (n == 0 ==> turns[n].p1 == Origin)
      && (n > 0 && Both(low, high, CursorAt(low, high, n)) ==>
            turns[n].p1 == if turns[n].lower then turns[n - 1].p3 else turns[n - 1].p1)
  {
    TurnAt(low, high, n);
    if n > 0 {
      TurnAt(low, high, n - 1);
      if Both(low, high, CursorAt(low, high, n)) { StepBoth(low, high, n); }
    }
  }

  /** The end that would be meant: the point of the other curve before the far end. */
  function Neighbour(low: seq<Point>, high: seq<Point>, c: Cursor): Point
    requires Both(low, high, c)
  {
    if TakesLower(low, high, c) then (if c.hi == 0 then Origin else high[c.hi - 1])
    else if c.lo == 0 then Origin else low[c.lo - 1]
  }

  /** The near end at turn `n`. */
  lemma NearEndIs(low: seq<Point>, high: seq<Point>, n: nat)
    requires high != [] && n < |low| + |high|
    ensures Turns(low, high, Begin)[n].p1 == CursorAt(low, high, n).p1
    ensures Turns(low, high, Begin)[n].lower == TakesLower(low, high, CursorAt(low, high, n))
  {
    TurnAt(low, high, n);
  }

  /** A low point is compared with the line between its neighbours on the high curve if and only
      if it is the very first point, or the point taken before it was a high one, or happens to
      be that neighbour. */
  lemma {:induction false} LowNeighbourExactly(low: seq<Point>, high: seq<Point>, n: nat)
    requires high != [] && n < |low| + |high| && Both(low, high, CursorAt(low, high, n))
    requires TakesLower(low, high, CursorAt(low, high, n))
    ensures var c := CursorAt(low, high, n);
      c.p1 == Neighbour(low, high, c)
      <==> n == 0 || !TakesLower(low, high, CursorAt(low, high, n - 1)) || (c.lo > 0 && low[c.lo - 1] == Neighbour(low, high, c))
  {
    if n > 0 { StepBoth(low, high, n); }
  }

  /** The point taken before the last low one, or the origin. */
  function BeforeLow(low: seq<Point>, high: seq<Point>, n: nat): Point
    requires high != [] && n <= |low| + |high|
  {
    if n == 0 then Origin
    else if !TakesLower(low, high, CursorAt(low, high, n - 1)) then BeforeLow(low, high, n - 1)
    else if n == 1 then Origin
    else Taken(low, high, CursorAt(low, high, n - 2))
  }

  /** While both curves have points, the near end is that point if a high point is next. */
  lemma {:induction false} HighNearEnd(low: seq<Point>, high: seq<Point>, n: nat)
    requires high != [] && n < |low| + |high| && Both(low, high, CursorAt(low, high, n))
    requires !TakesLower(low, high, CursorAt(low, high, n))
    ensures CursorAt(low, high, n).p1 == BeforeLow(low, high, n)
  {
    if n > 0 {
      StepBoth(low, high, n);
      if !TakesLower(low, high, CursorAt(low, high, n - 1)) {
        HighNearEnd(low, high, n - 1);
      } else if n > 1 {
        StepBoth(low, high, n - 1);
      }
    }
  }

  /** A high point is compared with the line between its neighbours on the low curve if and only
      if no low point has been taken yet, or the point before the last low one happens to be that
      one. */
  lemma {:induction false} HighNeighbourExactly(low: seq<Point>, high: seq<Point>, n: nat)
    requires high != [] && n < |low| + |high| && Both(low, high, CursorAt(low, high, n))
    requires !TakesLower(low, high, CursorAt(low, high, n))
    ensures var c := CursorAt(low, high, n);
      c.p1 == Neighbour(low, high, c)
      <==> c.lo == 0 || BeforeLow(low, high, n) == low[c.lo - 1]
  {
    HighNearEnd(low, high, n);
    if CursorAt(low, high, n).lo == 0 { NoLowBefore(low, high, n); }
    SameNeighbour(low, high, CursorAt(low, high, n), BeforeLow(low, high, n));
  }

  lemma SameNeighbour(low: seq<Point>, high: seq<Point>, c: Cursor, p: Point)
    requires Both(low, high, c) && !TakesLower(low, high, c) && c.p1 == p && (c.lo == 0 ==> p == Origin)
    ensures c.p1 == Neighbour(low, high, c) <==> c.lo == 0 || p == low[c.lo - 1]
  {}

  lemma {:induction false} NoLowBefore(low: seq<Point>, high: seq<Point>, n: nat)
    requires high != [] && n <= |low| + |high| && Both(low, high, CursorAt(low, high, n)) && CursorAt(low, high, n).lo == 0
    ensures BeforeLow(low, high, n) == Origin
  {
    if n > 0 {
      StepBoth(low, high, n);
      NoLowBefore(low, high, n - 1);
    }
  }

  lemma {:induction false} PrevIsBefore(low: seq<Point>, high: seq<Point>, n: nat)
    requires high != [] && 0 < n <= |low| + |high|
    ensures CursorAt(low, high, n).prev == CursorAt(low, high, n - 1).p1
    ensures !Both(low, high, CursorAt(low, high, n)) ==> CursorAt(low, high, n).p1 == CursorAt(low, high, n - 1).prev
  {
    assert CursorAt(low, high, n) == Advance(low, high, CursorAt(low, high, n - 1));
  }

  /** Once one curve is used up, the near end is that of the turn before the last: it alternates
      between two points. */
  lemma {:induction false} NearEndBack(low: seq<Point>, high: seq<Point>, n: nat)
    requires high != [] && 0 < n < |low| + |high| && !Both(low, high, CursorAt(low, high, n))
    ensures CursorAt(low, high, n).p1 == if n == 1 then Origin else CursorAt(low, high, n - 2).p1
  {
    PrevIsBefore(low, high, n);
    if n > 1 { PrevIsBefore(low, high, n - 1); }
  }
}
