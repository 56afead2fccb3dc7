/** Calendars as sorted lists of instants, in nanoseconds (quant_master/data/data.py and
    quant_master/backtest/utils.py). */
module Calendars {
  import opened Common
  import opened Search

  const SECOND: int := 1_000_000_000

  /** The time range starts after the last calendar point. */
  datatype LocateError = FutureStart

  function IndexOf(cal: seq<int>, x: int): (i: nat)
    requires x in cal
    ensures i < |cal| && cal[i] == x
  {
    if cal[0] == x then 0 else 1 + IndexOf(cal[1..], x)
  }

  /** First and last calendar index of a time range. The start is looked up exactly or rounded up,
      the end exactly or rounded down; rounding down below the first point gives index -1, which
      Python reads as the last point. */
  function LocateIndex(cal: seq<int>, start: int, end: int): Result<(nat, nat), LocateError>
    requires StrictlySorted(cal)
  {
    var startIndex := if start in cal then IndexOf(cal, start) else BisectLeft(cal, start);
    if startIndex == |cal| then Err(FutureStart)
    else
      var right := BisectRight(cal, end);
      var endIndex :=
        if end in cal then IndexOf(cal, end) else if right == 0 then |cal| - 1 else right - 1;
      Ok((startIndex, endIndex))
  }

  lemma {:induction false} LocateByBisect(cal: seq<int>, start: int, end: int)
    requires StrictlySorted(cal)
    ensures LocateIndex(cal, start, end) ==
            if BisectLeft(cal, start) == |cal| then Err(FutureStart)
            else Ok((BisectLeft(cal, start),
                     if BisectRight(cal, end) == 0 then |cal| - 1 else BisectRight(cal, end) - 1))
  {
    if start in cal {
      var i, k := IndexOf(cal, start), BisectLeft(cal, start);
      assert k <= i && start <= cal[k];
      assert i == k;
    }
    if end in cal {
      var i, k := IndexOf(cal, end), BisectRight(cal, end);
      assert i < k && cal[k - 1] <= end;
      assert i == k - 1;
    }
  }

  predicate Covers(cal: seq<int>, lo: int, hi: int, start: int, end: int) {
    forall i :: 0 <= i < |cal| ==> (lo <= i <= hi <==> start <= cal[i] <= end)
  }

  /** Locating fails exactly for a start after the last point; otherwise the indices cover exactly
      the points in the range if and only if the range does not end before the first point. */
  lemma {:induction false} LocateExact(cal: seq<int>, start: int, end: int)
    requires StrictlySorted(cal)
    ensures LocateIndex(cal, start, end).Err? <==> forall i :: 0 <= i < |cal| ==> cal[i] < start
    ensures LocateIndex(cal, start, end).Ok? ==>
              var (lo, hi) := LocateIndex(cal, start, end).value;
              lo < |cal| && hi < |cal| && (Covers(cal, lo, hi, start, end) <==> cal[0] <= end)
  {
    LocateByBisect(cal, start, end);
    var l, r := BisectLeft(cal, start), BisectRight(cal, end);
    if l < |cal| {
      assert start <= cal[l];
      if r == 0 {
        assert !Covers(cal, l, |cal| - 1, start, end) by {
          assert end < cal[l];
        }
      } else {
        assert cal[0] <= end;
      }
    }
  }

  /** The calendar points of an optional time range. */
  function Calendar(cal: seq<int>, start: Option<int>, end: Option<int>): seq<int>
    requires StrictlySorted(cal) && cal != []
  {
    if start.Some? && start.value > cal[|cal| - 1] then []
    else if end.Some? && end.value < cal[0] then []
    else
      var from := if start.Some? then start.value else cal[0];
      var to := if end.Some? then end.value else cal[|cal| - 1];
      match LocateIndex(cal, from, to)
      case Err(_) => []
      case Ok((lo, hi)) => if lo > hi then [] else cal[lo..hi + 1]
  }

  /** The two guards before locating make the answer exact for every range. */
  lemma {:induction false} CalendarExact(cal: seq<int>, start: Option<int>, end: Option<int>)
    requires StrictlySorted(cal) && cal != []
    ensures StrictlySorted(Calendar(cal, start, end))
    ensures forall t :: t in Calendar(cal, start, end) <==>
              t in cal && (start.Some? ==> start.value <= t) && (end.Some? ==> t <= end.value)
  {
    hide LocateIndex;
    var from := if start.Some? then start.value else cal[0];
    var to := if end.Some? then end.value else cal[|cal| - 1];
    LocateExact(cal, from, to);
    if (start.None? || start.value <= cal[|cal| - 1]) && (end.None? || cal[0] <= end.value) {
      assert from <= cal[|cal| - 1] && cal[0] <= to;
      var (lo, hi) := LocateIndex(cal, from, to).value;
      if lo <= hi {
        SliceOfCovered(cal, lo, hi, from, to);
      }
    }
  }

  lemma {:induction false} SliceOfCovered(cal: seq<int>, lo: nat, hi: nat, from: int, to: int)
    requires StrictlySorted(cal) && lo <= hi < |cal| && Covers(cal, lo, hi, from, to)
    ensures StrictlySorted(cal[lo..hi + 1])
    ensures forall t :: t in cal[lo..hi + 1] <==> t in cal && from <= t <= to
  {
    forall t
      ensures t in cal[lo..hi + 1] <==> t in cal && from <= t <= to
    {
      if t in cal && from <= t <= to {
        var i :| 0 <= i < |cal| && cal[i] == t;
        assert cal[lo..hi + 1][i - lo] == t;
      }
    }
  }

  lemma {:induction false} LocateCalendarPoint(cal: seq<int>, i: nat, j: nat)
    requires StrictlySorted(cal) && i < |cal| && j < |cal|
    ensures LocateIndex(cal, cal[i], cal[j]) == Ok((i, j))
  {
    var a, b := IndexOf(cal, cal[i]), IndexOf(cal, cal[j]);
  }

  /** The calendar from a point on is the rest of the calendar. */
  lemma {:induction false} NewCalendar(cal: seq<int>, k: nat)
    requires StrictlySorted(cal) && k < |cal|
    ensures Calendar(cal, Some(cal[k]), None) == cal[k..]
    ensures cal[k] == cal[|cal| - 1] <==> k == |cal| - 1
  {
    LocateCalendarPoint(cal, k, |cal| - 1);
  }

  // ----- trading steps -----

  /** A calendar with the length of a step after its last point. */
  datatype TradingCalendar = TradingCalendar(points: seq<int>, tail: int)

  predicate Regular(c: TradingCalendar) {
    StrictlySorted(c.points) && c.points != [] && SECOND <= c.tail
  }

  function StepStart(c: TradingCalendar, i: nat): int
    requires i < |c.points|
  {
    c.points[i]
  }

  /** The closed right end of a step: one second before the next one. */
  function StepEnd(c: TradingCalendar, i: nat): int
    requires i < |c.points|
  {
    (if i + 1 < |c.points| then c.points[i + 1] else c.points[i] + c.tail) - SECOND
  }

  predicate InStep(c: TradingCalendar, i: nat, t: int)
    requires i < |c.points|
  {
    StepStart(c, i) <= t <= StepEnd(c, i)
  }

  /** The instant falls into the second that the closed end of step i leaves out before the next one. */
  predicate InGap(c: TradingCalendar, i: nat, t: int)
    requires i < |c.points|
  {
    StepEnd(c, i) < t < StepEnd(c, i) + SECOND
  }

  /** Every instant of the calendar's time lies in exactly one step, or in none and then in the second
      that some step leaves out at its end. */
  lemma {:induction false} StepTimesExact(c: TradingCalendar, t: int)
    requires Regular(c) && c.points[0] <= t < c.points[|c.points| - 1] + c.tail
    ensures forall i, j :: 0 <= i < |c.points| && 0 <= j < |c.points| && InStep(c, i, t) && InStep(c, j, t) ==> i == j
    ensures (exists i :: 0 <= i < |c.points| && InStep(c, i, t)) <==>
            !exists i :: 0 <= i < |c.points| && InGap(c, i, t)
  {
    var k := BisectRight(c.points, t) - 1;
    assert c.points[0] <= t;
    assert forall i: nat :: i < |c.points| && InStep(c, i, t) ==> i == k by {
      forall i: nat | i < |c.points| && InStep(c, i, t)
        ensures i == k
      {
        assert i + 1 < |c.points| ==> t < c.points[i + 1];
      }
    }
    assert InStep(c, k, t) || InGap(c, k, t);
    forall i: nat | i < |c.points| && InGap(c, i, t)
      ensures !InStep(c, k, t)
    {
      assert i + 1 < |c.points| ==> t < c.points[i + 1];
      if i > k {
        assert c.points[k + 1] <= c.points[i];
      }
    }
  }

  /** The indices of an inner calendar run by step i of an outer one. */
  function InnerRange(outer: TradingCalendar, inner: TradingCalendar, i: nat): Result<(nat, nat), LocateError>
    requires StrictlySorted(inner.points) && i < |outer.points|
  {
    LocateIndex(inner.points, StepStart(outer, i), StepEnd(outer, i))
  }

  /** The inner calendar can be located for a step: it has a point at or after the step's start
      and one at or before its end. */
  predicate Located(outer: TradingCalendar, inner: TradingCalendar, i: nat)
    requires inner.points != [] && i < |outer.points|
  {
    StepStart(outer, i) <= inner.points[|inner.points| - 1] && inner.points[0] <= StepEnd(outer, i)
  }

  /** No inner point falls into the second that the closed end of step i leaves out. */
  predicate NoPointInGap(outer: TradingCalendar, inner: TradingCalendar, i: nat)
    requires i + 1 < |outer.points|
  {
    forall j :: 0 <= j < |inner.points| ==>
      !(outer.points[i + 1] - SECOND < inner.points[j] < outer.points[i + 1])
  }

  /** Consecutive outer steps run adjacent, disjoint inner ranges exactly when no inner point falls
      into the second between them. */
  lemma {:induction false} AdjacentExactly(outer: TradingCalendar, inner: TradingCalendar, i: nat)
    requires Regular(outer) && Regular(inner) && i + 1 < |outer.points|
    requires Located(outer, inner, i) && Located(outer, inner, i + 1)
    ensures InnerRange(outer, inner, i).Ok? && InnerRange(outer, inner, i + 1).Ok?
    ensures InnerRange(outer, inner, i).value.1 + 1 == InnerRange(outer, inner, i + 1).value.0
            <==> NoPointInGap(outer, inner, i)
    ensures InnerRange(outer, inner, i).value.1 < InnerRange(outer, inner, i + 1).value.0
  {
    var cal, next := inner.points, outer.points[i + 1];
    LocateByBisect(cal, StepStart(outer, i), StepEnd(outer, i));
    LocateByBisect(cal, StepStart(outer, i + 1), StepEnd(outer, i + 1));
    var r, l := BisectRight(cal, next - SECOND), BisectLeft(cal, next);
    assert cal[0] <= next - SECOND;
    assert l < |cal| && next <= cal[l];
    assert 0 < r <= l;
    if r < l {
      assert next - SECOND < cal[r] < next;
    }
  }

  /** The steps of the range [first, first + len) that a closed time range touches. */
  function RangeIdx(c: TradingCalendar, first: nat, len: int, start: int, end: int): (int, int)
    requires StrictlySorted(c.points)
  {
    var left := BisectRight(c.points, start) - 1 - first;
    var right := BisectRight(c.points, end) - 1 - first;
    (MinInt(MaxInt(0, left), len - 1), MinInt(MaxInt(0, right), len - 1))
  }

  /** Step first + i, taken up to the next point, meets the closed time range. */
  predicate Meets(c: TradingCalendar, first: nat, i: int, start: int, end: int) {
    && 0 <= first + i < |c.points|
    && c.points[first + i] <= end
    && (first + i + 1 < |c.points| ==> start < c.points[first + i + 1])
  }

  lemma {:induction false} MeetsByBisect(c: TradingCalendar, first: nat, i: nat, start: int, end: int)
    requires StrictlySorted(c.points) && first + i < |c.points|
    ensures Meets(c, first, i, start, end) <==>
            BisectRight(c.points, start) - 1 <= first + i <= BisectRight(c.points, end) - 1
  {
    var j: nat := first + i;
    assert c.points[j] <= end <==> j < BisectRight(c.points, end);
    if j + 1 < |c.points| {
      assert start < c.points[j + 1] <==> BisectRight(c.points, start) <= j + 1;
    }
  }

  /** The clipped index range is exactly the set of steps the time range meets if and only if it
      meets some step; outside, clipping still answers with the nearest step. */
  lemma {:induction false} RangeIdxExact(c: TradingCalendar, first: nat, len: int, start: int, end: int)
    requires StrictlySorted(c.points) && 0 < len && first + len <= |c.points| && start <= end
    ensures (forall i {:trigger Meets(c, first, i, start, end)} :: 0 <= i < len ==>
               (RangeIdx(c, first, len, start, end).0 <= i <= RangeIdx(c, first, len, start, end).1
                <==> Meets(c, first, i, start, end)))
            <==> exists i :: 0 <= i < len && Meets(c, first, i, start, end)
  {
    var (lo, hi) := RangeIdx(c, first, len, start, end);
    var a, b := BisectRight(c.points, start), BisectRight(c.points, end);
    assert b < |c.points| ==> start < c.points[b];
    assert a <= b;
    forall i | 0 <= i < len
      ensures Meets(c, first, i, start, end) <==> a - 1 <= first + i <= b - 1
    {
      MeetsByBisect(c, first, i, start, end);
    }
    assert 0 <= lo < len && lo <= hi;
    assert Meets(c, first, lo, start, end) <==> a - 1 <= first + lo <= b - 1;
  }
}
