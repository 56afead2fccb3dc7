/** Reading the point-in-time store as of a date (quant_master/utils/__init__.py and
    LocalPITProvider in quant_master/data/data.py). */
module PitRead {
  import opened Common
  import opened Search
  import opened PitDump

  function Dates(rows: seq<Row>): (d: seq<int>)
    ensures |d| == |rows| && forall i :: 0 <= i < |rows| ==> d[i] == rows[i].date
  {
    seq(|rows|, i requires 0 <= i < |rows| => rows[i].date)
  }

  /** The rows published by a date. */
  function VisiblePrefix(rows: seq<Row>, curDate: int): seq<Row>
    requires Sorted(Dates(rows))
  {
    rows[..BisectRight(Dates(rows), curDate)]
  }

  /** In a date-sorted file the prefix found by binary search holds exactly the visible rows. */
  lemma {:induction false} VisiblePrefixExact(rows: seq<Row>, curDate: int)
    requires Sorted(Dates(rows))
    ensures VisiblePrefix(rows, curDate) <= rows
    ensures forall k :: 0 <= k < |rows| ==>
              (rows[k].date <= curDate <==> k < |VisiblePrefix(rows, curDate)|)
  {
    assert forall k :: 0 <= k < |rows| ==> rows[k].date == Dates(rows)[k];
  }

  /** Reference answer: scan the rows in file order and keep the last revision of the period
      that was published by the date. */
  function LastPublished(rows: seq<Row>, period: int, curDate: int): Cell {
    if rows == [] then NaN
    else
      var last := rows[|rows| - 1];
      if last.period == period && last.date <= curDate then last.value
      else LastPublished(rows[..|rows| - 1], period, curDate)
  }

  /** A well-formed store: chains right, rows sorted by date, periods valid. */
  ghost predicate Readable(recs: seq<Record>, slots: seq<nat>, firstYear: int, quarterly: bool) {
    && ChainsMatch(recs, slots, firstYear, quarterly)
    && Sorted(Dates(RowsOf(recs)))
    && forall i :: 0 <= i < |recs| ==> ValidPeriod(recs[i].row.period, quarterly)
  }

  /** What following a chain from an offset finds: the last visible value and the offset it was found at. */
  function Follow(recs: seq<Record>, off: nat, curDate: int, value: Cell, at: nat): (Cell, nat)
    requires Forward(recs) && IsLink(off, |recs|)
    decreases if off == NA_INDEX then 0 else |recs| - off / RECORD_SIZE
  {
    if off == NA_INDEX then (value, at)
    else
      var rec := recs[off / RECORD_SIZE];
      if rec.row.date > curDate then (value, at) else Follow(recs, rec.next, curDate, rec.row.value, off)
  }

  /** Splitting the positions of a slot into visible and not yet visible gives the scan's answer. */
  lemma {:induction false} ScanFromPositions(
    rows: seq<Row>, firstYear: int, quarterly: bool, period: int, curDate: int, m: nat)
    requires ValidPeriod(period, quarterly)
    requires forall i :: 0 <= i < |rows| ==> ValidPeriod(rows[i].period, quarterly)
    requires m <= |Positions(rows, firstYear, quarterly, PeriodOffset(firstYear, period, quarterly))|
    requires var ps := Positions(rows, firstYear, quarterly, PeriodOffset(firstYear, period, quarterly));
             && (forall i :: 0 <= i < m ==> rows[ps[i]].date <= curDate)
             && (forall i :: m <= i < |ps| ==> rows[ps[i]].date > curDate)
    ensures var ps := Positions(rows, firstYear, quarterly, PeriodOffset(firstYear, period, quarterly));
            LastPublished(rows, period, curDate) == if m == 0 then NaN else rows[ps[m - 1]].value
  {
    if rows != [] {
      var n := |rows| - 1;
      var slot := PeriodOffset(firstYear, period, quarterly);
      var ps := Positions(rows, firstYear, quarterly, slot);
      var before := Positions(rows[..n], firstYear, quarterly, slot);
      PeriodOffsetInjective(firstYear, rows[n].period, period, quarterly);
      if rows[n].period == period && rows[n].date <= curDate {
        assert ps == before + [n];
        assert ps[|ps| - 1] == n;
        assert m == |ps|;
      } else {
        assert m <= |before|;
        assert forall i :: 0 <= i < |before| ==> ps[i] == before[i] && rows[..n][before[i]] == rows[ps[i]];
        ScanFromPositions(rows[..n], firstYear, quarterly, period, curDate, m);
      }
    }
  }

  /** Following a chain stops after the visible part of it. */
  lemma {:induction false} FollowSplitsChain(
    recs: seq<Record>, off: nat, curDate: int, value: Cell, at: nat) returns (m: nat)
    requires Forward(recs) && IsLink(off, |recs|) && Sorted(Dates(RowsOf(recs)))
    ensures var chain := Chain(recs, off);
            && m <= |chain|
            && (forall i :: 0 <= i < m ==> recs[chain[i]].row.date <= curDate)
            && (forall i :: m <= i < |chain| ==> recs[chain[i]].row.date > curDate)
            && Follow(recs, off, curDate, value, at).0 == (if m == 0 then value else recs[chain[m - 1]].row.value)
            && Follow(recs, off, curDate, value, at).1 == (if m == 0 then at else RECORD_SIZE * chain[m - 1])
    decreases if off == NA_INDEX then 0 else |recs| - off / RECORD_SIZE
  {
    m := 0;
    if off != NA_INDEX {
      var k := off / RECORD_SIZE;
      var rec := recs[k];
      if rec.row.date <= curDate {
        var rest := FollowSplitsChain(recs, rec.next, curDate, rec.row.value, off);
        m := rest + 1;
        assert Chain(recs, off)[1..] == Chain(recs, rec.next);
        assert RECORD_SIZE * k == off;
      } else {
        ChainIncreases(recs, off);
        var chain := Chain(recs, off);
        forall i | 0 <= i < |chain|
          ensures recs[chain[i]].row.date > curDate
        {
          assert Dates(RowsOf(recs))[k] <= Dates(RowsOf(recs))[chain[i]];
        }
      }
    }
  }

  /** As-of lookup through the chain gives the reference answer. */
  lemma {:induction false} FollowIsScan(
    recs: seq<Record>, slots: seq<nat>, firstYear: int, quarterly: bool, period: int, curDate: int)
    requires Readable(recs, slots, firstYear, quarterly) && ValidPeriod(period, quarterly)
    requires 0 <= PeriodOffset(firstYear, period, quarterly) < |slots|
    ensures var head := slots[PeriodOffset(firstYear, period, quarterly)];
            Follow(recs, head, curDate, NaN, head).0 == LastPublished(RowsOf(recs), period, curDate)
  {
    var slot: nat := PeriodOffset(firstYear, period, quarterly);
    var head := slots[slot];
    var m := FollowSplitsChain(recs, head, curDate, NaN, head);
    var rows := RowsOf(recs);
    assert Chain(recs, head) == Positions(rows, firstYear, quarterly, slot);
    ScanFromPositions(rows, firstYear, quarterly, period, curDate, m);
  }

  /** Dump, then read as of any date: the answer is that of scanning the dumped rows. */
  lemma {:induction false} DumpThenRead(
    rows: seq<Row>, firstYear: int, quarterly: bool, n: nat, period: int, curDate: int)
    requires AllFit(rows, firstYear, quarterly, n) && OffsetsFit(|rows|) && Sorted(Dates(rows))
    requires ValidPeriod(period, quarterly) && 0 <= PeriodOffset(firstYear, period, quarterly) < n
    requires forall i :: 0 <= i < |rows| ==> ValidPeriod(rows[i].period, quarterly)
    requires ChainsMatch([], MissingSlots(n), firstYear, quarterly)
    ensures var (recs, slots) := AppendRows([], MissingSlots(n), firstYear, quarterly, rows);
            var head := slots[PeriodOffset(firstYear, period, quarterly)];
            ReadFrom(recs, head, curDate).0 == LastPublished(rows, period, curDate)
  {
    var r := AppendRows([], MissingSlots(n), firstYear, quarterly, rows);
    assert RowsOf(r.0) == rows by {
      assert RowsOf([]) + rows == rows;
    }
    assert forall i :: 0 <= i < |r.0| ==> r.0[i].row == RowsOf(r.0)[i];
    FollowIsScan(r.0, r.1, firstYear, quarterly, period, curDate);
  }

  /** The date sort of the dump is needed: with the later date first, the earlier revision is
      never found on the chain as of its own date. */
  lemma {:induction false} UnsortedDatesHideARevision()
    ensures var rows := [Row(20190418, 2018, Num(2.0)), Row(20190102, 2018, Num(1.0))];
            var recs := [Record(rows[0], 20), Record(rows[1], NA_INDEX)];
            && ChainsMatch(recs, [0], 2018, false) && RowsOf(recs) == rows
            && ReadFrom(recs, 0, 20190102).0 == NaN
            && LastPublished(rows, 2018, 20190102) == Num(1.0)
  {
    var rows := [Row(20190418, 2018, Num(2.0)), Row(20190102, 2018, Num(1.0))];
    var recs := [Record(rows[0], 20), Record(rows[1], NA_INDEX)];
    assert RowsOf(recs) == rows;
    assert Forward(recs);
    assert Chain(recs, 20) == [1];
    assert Chain(recs, 0) == [0, 1];
    assert rows[..1] == [rows[0]];
    assert Positions(rows[..1], 2018, false, 0) == [0];
    assert Positions(rows, 2018, false, 0) == [0, 1];
  }

  /** A read from a given offset: the value and offset of the last revision visible at the date. */
  function ReadFrom(recs: seq<Record>, start: nat, curDate: int): (Cell, nat)
    requires Forward(recs) && IsLink(start, |recs|)
  {
    Follow(recs, start, curDate, NaN, start)
  }

  /** The offset returned by a read can be handed to a read at a later date in place of the
      period's slot: the answer is the same as from the slot. */
  lemma {:induction false} ResumeIsRestart(recs: seq<Record>, start: nat, curDate: int, laterDate: int)
    requires Forward(recs) && IsLink(start, |recs|) && curDate <= laterDate
    ensures IsLink(ReadFrom(recs, start, curDate).1, |recs|)
    ensures ReadFrom(recs, ReadFrom(recs, start, curDate).1, laterDate) == ReadFrom(recs, start, laterDate)
  {
    if start != NA_INDEX && recs[start / RECORD_SIZE].row.date <= curDate {
      var found := ReadFrom(recs, start, curDate).1;
      FollowResumes(recs, start, curDate, laterDate, NaN, start, NaN, found);
    }
  }

  lemma {:induction false} FollowResumes(
    recs: seq<Record>, off: nat, curDate: int, laterDate: int, value: Cell, at: nat, value': Cell, at': nat)
    requires Forward(recs) && IsLink(off, |recs|) && curDate <= laterDate
    requires off != NA_INDEX && recs[off / RECORD_SIZE].row.date <= curDate
    ensures var found := Follow(recs, off, curDate, value, at).1;
            && IsLink(found, |recs|)
            && Follow(recs, found, laterDate, value', at') == Follow(recs, off, laterDate, value, at)
    decreases |recs| - off / RECORD_SIZE
  {
    var rec := recs[off / RECORD_SIZE];
    if rec.next != NA_INDEX && recs[rec.next / RECORD_SIZE].row.date <= curDate {
      FollowResumes(recs, rec.next, curDate, laterDate, rec.row.value, off, value', at');
    }
  }

  /** Read one period as of a date, from its slot or from an offset returned by an earlier read. */
  method ReadPeriodData(
    firstYear: int, slots: seq<nat>, recs: seq<Record>, period: int, curDate: int, quarterly: bool,
    lastPeriodIndex: Option<nat>)
    returns (value: Cell, at: nat)
    requires Readable(recs, slots, firstYear, quarterly) && ValidPeriod(period, quarterly)
    requires 0 <= PeriodOffset(firstYear, period, quarterly) < |slots|
    requires lastPeriodIndex.Some? ==> IsLink(lastPeriodIndex.value, |recs|)
    ensures lastPeriodIndex.None? ==> value == LastPublished(RowsOf(recs), period, curDate)
    ensures (value, at) == ReadFrom(recs, if lastPeriodIndex.Some? then lastPeriodIndex.value
                                          else slots[PeriodOffset(firstYear, period, quarterly)], curDate)
  {
    var offset := PeriodOffset(firstYear, period, quarterly);
    var start: nat := if lastPeriodIndex.Some? then lastPeriodIndex.value else slots[offset];
    var next := start;
    value, at := NaN, next;
    while next != NA_INDEX
      invariant IsLink(next, |recs|)
      invariant ReadFrom(recs, start, curDate) == Follow(recs, next, curDate, value, at)
      decreases if next == NA_INDEX then 0 else |recs| - next / RECORD_SIZE
    {
      var rec := recs[next / RECORD_SIZE];
      if rec.row.date > curDate {
        break;
      }
      at, next, value := next, rec.next, rec.row.value;
    }
    FollowIsScan(recs, slots, firstYear, quarterly, period, curDate);
  }

  /** The bounds that period lists are asked for within. */
  predicate InBounds(period: int, quarterly: bool) {
    if quarterly then 190000 <= period <= 209904 else 1900 <= period <= 2099
  }

  /** All periods of a range, in order; raises for a first or last one out of bounds. */
  method GetPeriodList(first: int, last: int, quarterly: bool) returns (ok: bool, periods: seq<int>)
    ensures ok <==> if quarterly then 190000 <= first <= 209904 && 190000 <= last <= 209904
                    else 1900 <= first <= 2099 && 1900 <= last <= 2099
    ensures ok ==> StrictlySorted(periods)
    ensures ok ==> forall p :: p in periods <==> ValidPeriod(p, quarterly) && first <= p <= last
  {
    periods := [];
    ok := InBounds(first, quarterly) && InBounds(last, quarterly);
    if !ok {
      return;
    }
    if !quarterly {
      periods := seq(MaxInt(0, last + 1 - first), i requires 0 <= i => first + i);
      forall p | first <= p <= last
        ensures p in periods
      {
        assert periods[p - first] == p;
      }
      return;
    }
    for year := first / 100 to MaxInt(first / 100, last / 100 + 1)
      invariant StrictlySorted(periods)
      invariant forall p :: p in periods <==> ValidPeriod(p, true) && first <= p <= last && p < 100 * year
    {
      for q := 1 to 5
        invariant StrictlySorted(periods)
        invariant forall p :: p in periods <==> ValidPeriod(p, true) && first <= p <= last && p < 100 * year + q
      {
        var period := year * 100 + q;
        if first <= period <= last {
          assert forall i :: 0 <= i < |periods| ==> periods[i] in periods;
          periods := periods + [period];
        }
      }
    }
  }

  /** The periods asked for by relative start and end (0 is the newest visible period). */
  function Window(periods: seq<int>, startIndex: int, endIndex: int): seq<int>
    requires endIndex <= 0
  {
    PySlice(periods, MaxInt(0, |periods| + startIndex - 1), |periods| + endIndex)
  }

  /** What the relative range means: the periods at the named distances from the newest one. */
  function WantedWindow(periods: seq<int>, startIndex: int, endIndex: int): seq<int>
    requires endIndex <= 0
  {
    var n := |periods|;
    if startIndex > endIndex || n + endIndex <= 0 then [] else periods[MaxInt(0, n + startIndex - 1)..n + endIndex]
  }

  /** A range that ends before the oldest visible period makes the slice end negative, and Python
      then counts it from the other side: the answer is right exactly when that wraps to nothing, or to
      an end before the start. */
  lemma {:induction false} WindowExact(periods: seq<int>, startIndex: int, endIndex: int)
    requires endIndex <= 0
    ensures Window(periods, startIndex, endIndex) == WantedWindow(periods, startIndex, endIndex)
            <==> endIndex >= -|periods| || endIndex <= -2 * |periods| || startIndex > |periods| + endIndex
  {
  }

  /** With three visible periods, asking for the period five before the newest returns the oldest one. */
  lemma {:induction false} WindowCounterexample()
    ensures Window([201801, 201802, 201803], -5, -5) == [201801]
    ensures WantedWindow([201801, 201802, 201803], -5, -5) == []
  {
    assert PySlice([201801, 201802, 201803], 0, -2) == [201801, 201802, 201803][0..1];
  }

  lemma {:induction false} WindowTakesFromList(periods: seq<int>, startIndex: int, endIndex: int)
    requires endIndex <= 0
    ensures forall i :: 0 <= i < |Window(periods, startIndex, endIndex)| ==>
              Window(periods, startIndex, endIndex)[i] in periods
  {
  }

  lemma {:induction false} PeriodOffsetMonotone(firstYear: int, p: int, q: int, quarterly: bool)
    requires ValidPeriod(p, quarterly) && ValidPeriod(q, quarterly) && p <= q
    ensures PeriodOffset(firstYear, p, quarterly) <= PeriodOffset(firstYear, q, quarterly)
  {
  }

  /** Periods between those of the first `loc` records have slots in the index. */
  lemma {:induction false} KnownPeriodsHaveSlots(
    recs: seq<Record>, slots: seq<nat>, firstYear: int, quarterly: bool, loc: nat, periods: seq<int>)
    requires Readable(recs, slots, firstYear, quarterly) && 0 < loc <= |recs|
    requires forall i :: 0 <= i < |periods| ==>
               ValidPeriod(periods[i], quarterly) &&
               MinPeriod(RowsOf(recs)[..loc]) <= periods[i] <= MaxPeriod(RowsOf(recs)[..loc])
    ensures forall i :: 0 <= i < |periods| ==> 0 <= PeriodOffset(firstYear, periods[i], quarterly) < |slots|
  {
    var known := RowsOf(recs)[..loc];
    var a :| 0 <= a < |known| && MinPeriod(known) == known[a].period;
    var b :| 0 <= b < |known| && MaxPeriod(known) == known[b].period;
    assert known[a] == recs[a].row && known[b] == recs[b].row;
    forall i | 0 <= i < |periods|
      ensures 0 <= PeriodOffset(firstYear, periods[i], quarterly) < |slots|
    {
      PeriodOffsetMonotone(firstYear, known[a].period, periods[i], quarterly);
      PeriodOffsetMonotone(firstYear, periods[i], known[b].period, quarterly);
    }
  }

  lemma {:induction false} KnownPeriodsValid(
    recs: seq<Record>, slots: seq<nat>, firstYear: int, quarterly: bool, loc: nat)
    requires Readable(recs, slots, firstYear, quarterly) && 0 < loc <= |recs|
    ensures ValidPeriod(MinPeriod(RowsOf(recs)[..loc]), quarterly)
    ensures ValidPeriod(MaxPeriod(RowsOf(recs)[..loc]), quarterly)
  {
    var known := RowsOf(recs)[..loc];
    var a :| 0 <= a < |known| && MinPeriod(known) == known[a].period;
    var b :| 0 <= b < |known| && MaxPeriod(known) == known[b].period;
    assert known[a] == recs[a].row && known[b] == recs[b].row;
  }

  /** The loop filling the value array. */
  method ReadPeriods(
    firstYear: int, slots: seq<nat>, recs: seq<Record>, periods: seq<int>, curDate: int, quarterly: bool)
    returns (values: seq<Cell>)
    requires Readable(recs, slots, firstYear, quarterly)
    requires forall i :: 0 <= i < |periods| ==>
               ValidPeriod(periods[i], quarterly) &&
               0 <= PeriodOffset(firstYear, periods[i], quarterly) < |slots|
    ensures |values| == |periods|
    ensures forall i :: 0 <= i < |periods| ==> values[i] == LastPublished(RowsOf(recs), periods[i], curDate)
  {
    values := [];
    for i := 0 to |periods|
      invariant |values| == i
      invariant forall j :: 0 <= j < i ==> values[j] == LastPublished(RowsOf(recs), periods[j], curDate)
    {
      var value, at := ReadPeriodData(firstYear, slots, recs, periods[i], curDate, quarterly, None);
      values := values + [value];
    }
  }

  /** The series of one field as of a date: the window of visible periods, each with its last visible
      revision. Raises when the first or last visible period is out of bounds. */
  method PeriodFeature(
    firstYear: int, slots: seq<nat>, recs: seq<Record>, startIndex: int, endIndex: int, curDate: int,
    period: Option<int>, quarterly: bool)
    returns (ok: bool, periods: seq<int>, values: seq<Cell>, ghost visible: seq<int>)
    requires Readable(recs, slots, firstYear, quarterly) && endIndex <= 0
    ensures var known := VisiblePrefix(RowsOf(recs), curDate);
            ok <==> known == [] || (InBounds(MinPeriod(known), quarterly) && InBounds(MaxPeriod(known), quarterly))
    ensures |values| == |periods|
    ensures forall i :: 0 <= i < |periods| ==> values[i] == LastPublished(RowsOf(recs), periods[i], curDate)
    // the periods known at the date span those of the rows published by then
    ensures StrictlySorted(visible)
    ensures var known := VisiblePrefix(RowsOf(recs), curDate);
            ok ==> forall p :: p in visible <==>
              known != [] && ValidPeriod(p, quarterly) && MinPeriod(known) <= p <= MaxPeriod(known)
    ensures periods == if !ok then []
                       else if period.Some? then (if period.value in visible then [period.value] else [])
                       else if visible == [] then [] else Window(visible, startIndex, endIndex)
  {
    hide ChainsMatch, Window, LastPublished;
    var rows := RowsOf(recs);
    var loc := BisectRight(Dates(rows), curDate);
    ok, periods, values, visible := true, [], [], [];
    if loc <= 0 {
      return;
    }
    assert rows[..loc] == VisiblePrefix(rows, curDate);
    KnownPeriodsValid(recs, slots, firstYear, quarterly, loc);
    var lastPeriod := MaxPeriod(rows[..loc]);
    var firstPeriod := MinPeriod(rows[..loc]);
    var periodList;
    ok, periodList := GetPeriodList(firstPeriod, lastPeriod, quarterly);
    if !ok {
      return;
    }
    visible := periodList;
    if period.Some? {
      if period.value !in periodList {
        return;
      }
      periods := [period.value];
    } else {
      periods := Window(periodList, startIndex, endIndex);
    }
    WindowTakesFromList(periodList, startIndex, endIndex);
    KnownPeriodsHaveSlots(recs, slots, firstYear, quarterly, loc, periods);
    values := ReadPeriods(firstYear, slots, recs, periods, curDate, quarterly);
  }
}
