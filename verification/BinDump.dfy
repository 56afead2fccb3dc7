/** Binary feature files (scripts/dump_bin.py): a field of a symbol is one run of values after a header
    that says where in the calendar the run starts. */
module BinDump {
  import opened Common
  import opened Search

  /** A source row; a field that a row lacks reads as missing. */
  datatype Row = Row(date: int, values: map<string, Cell>)

  /** The header, then one value per calendar point. */
  type BinFile = seq<Cell>

  // ----- rows and dates -----

  /** Of several rows of a date the first one is kept. */
  function Lookup(rows: seq<Row>, d: int): Option<Row> {
    if rows == [] then None else if rows[0].date == d then Some(rows[0]) else Lookup(rows[1..], d)
  }

  function CellAt(rows: seq<Row>, field: string, d: int): Cell {
    match Lookup(rows, d)
    case None => NaN
    case Some(row) => if field in row.values then row.values[field] else NaN
  }

  function MinDate(rows: seq<Row>): (d: int)
    requires rows != []
    ensures forall i :: 0 <= i < |rows| ==> d <= rows[i].date
    ensures exists i :: 0 <= i < |rows| && rows[i].date == d
  {
    var n := |rows| - 1;
    if n == 0 then rows[0].date else MinInt(MinDate(rows[..n]), rows[n].date)
  }

  function MaxDate(rows: seq<Row>): (d: int)
    requires rows != []
    ensures forall i :: 0 <= i < |rows| ==> rows[i].date <= d
    ensures exists i :: 0 <= i < |rows| && rows[i].date == d
  {
    var n := |rows| - 1;
    if n == 0 then rows[0].date else MaxInt(MaxDate(rows[..n]), rows[n].date)
  }

  /** The calendar points within two dates. */
  function Between(cal: seq<int>, lo: int, hi: int): seq<int> {
    if cal == [] then []
    else (if lo <= cal[0] <= hi then [cal[0]] else []) + Between(cal[1..], lo, hi)
  }

  function Cells(rows: seq<Row>, field: string, dates: seq<int>): (cells: seq<Cell>)
    ensures |cells| == |dates| && forall i :: 0 <= i < |dates| ==> cells[i] == CellAt(rows, field, dates[i])
  {
    seq(|dates|, i requires 0 <= i < |dates| => CellAt(rows, field, dates[i]))
  }

  /** The position of the first occurrence. */
  function FirstIndex(cal: seq<int>, d: int): (k: nat)
    requires d in cal
    ensures k < |cal| && cal[k] == d && forall i :: 0 <= i < k ==> cal[i] != d
  {
    if cal[0] == d then 0 else 1 + FirstIndex(cal[1..], d)
  }

  lemma {:induction false} BetweenFrom(cal: seq<int>, lo: int, hi: int)
    ensures forall d :: d in Between(cal, lo, hi) <==> d in cal && lo <= d <= hi
    decreases |cal|
  {
    if cal != [] {
      BetweenFrom(cal[1..], lo, hi);
      assert cal == [cal[0]] + cal[1..];
    }
  }

  /** The dates of the source rows on the calendar. */
  function Merged(rows: seq<Row>, cal: seq<int>): (dates: seq<int>)
    requires rows != []
    ensures forall d :: d in dates <==> d in cal && MinDate(rows) <= d <= MaxDate(rows)
  {
    BetweenFrom(cal, MinDate(rows), MaxDate(rows));
    Between(cal, MinDate(rows), MaxDate(rows))
  }

  /** The header of a run of dates: where in the calendar it starts. */
  function Header(cal: seq<int>, dates: seq<int>): (h: BinFile)
    requires dates != [] && dates[0] in cal
    ensures |h| == 1
  {
    [Num(FirstIndex(cal, dates[0]) as real)]
  }

  /** A file written afresh; nothing is written without rows or calendar points. */
  function FullDump(rows: seq<Row>, cal: seq<int>, field: string): Option<BinFile> {
    if rows == [] || Merged(rows, cal) == [] then None
    else Some(Header(cal, Merged(rows, cal)) + Cells(rows, field, Merged(rows, cal)))
  }

  // ----- what a file says -----

  lemma {:induction false} BisectStep(cal: seq<int>, x: int)
    requires Sorted(cal) && cal != []
    ensures Sorted(cal[1..])
    ensures BisectLeft(cal, x) == if x <= cal[0] then 0 else 1 + BisectLeft(cal[1..], x)
    ensures BisectRight(cal, x) == if x < cal[0] then 0 else 1 + BisectRight(cal[1..], x)
    ensures x <= cal[0] ==> BisectLeft(cal[1..], x) == 0
    ensures x < cal[0] ==> BisectRight(cal[1..], x) == 0
  {
    assert forall i :: 0 <= i < |cal| - 1 ==> cal[1..][i] == cal[i + 1];
  }

  lemma {:induction false} BetweenIsSlice(cal: seq<int>, lo: int, hi: int)
    requires Sorted(cal) && lo <= hi
    ensures BisectLeft(cal, lo) <= BisectRight(cal, hi)
    ensures Between(cal, lo, hi) == cal[BisectLeft(cal, lo)..BisectRight(cal, hi)]
    decreases |cal|
  {
    if cal != [] {
      hide BisectLeft, BisectRight, Sorted;
      var rest := cal[1..];
      BisectStep(cal, lo);
      BisectStep(cal, hi);
      BetweenIsSlice(rest, lo, hi);
      var a, b := BisectLeft(rest, lo), BisectRight(rest, hi);
      if lo <= cal[0] <= hi {
        assert cal[0..b + 1] == [cal[0]] + rest[0..b];
      } else if lo > cal[0] {
        assert cal[a + 1..b + 1] == rest[a..b];
      }
    }
  }

  lemma {:induction false} FirstIndexStrict(cal: seq<int>, k: nat)
    requires StrictlySorted(cal) && k < |cal|
    ensures FirstIndex(cal, cal[k]) == k
  {
  }

  /** In a file written afresh the value at a place is that of the row at the calendar point as many
      places after the start, or missing when the symbol has no row there; and the run covers the
      calendar from the first to the last row. */
  lemma {:induction false} FullDumpExact(rows: seq<Row>, cal: seq<int>, field: string)
    requires rows != [] && StrictlySorted(cal)
    ensures var file := FullDump(rows, cal, field);
            var start, stop := BisectLeft(cal, MinDate(rows)), BisectRight(cal, MaxDate(rows));
            && (file == None <==> start >= stop)
            && (file.Some? ==>
                  && |file.value| == 1 + stop - start && file.value[0] == Num(start as real)
                  && forall k :: 1 <= k < |file.value| ==> file.value[k] == CellAt(rows, field, cal[start + k - 1]))
  {
    hide MinDate, MaxDate, CellAt, Between, BisectLeft, BisectRight;
    var i :| 0 <= i < |rows| && rows[i].date == MinDate(rows);
    BetweenIsSlice(cal, MinDate(rows), MaxDate(rows));
    var start := BisectLeft(cal, MinDate(rows));
    if start < BisectRight(cal, MaxDate(rows)) {
      FirstIndexStrict(cal, start);
    }
  }

  /** What a date reads as: the field of the first row of the date, missing if that row lacks it, or if there
      is no row of the date. */
  lemma {:induction false} CellIsFirstRows(rows: seq<Row>, field: string, d: int, i: nat)
    requires i <= |rows| && forall j :: 0 <= j < i ==> rows[j].date != d
    requires i < |rows| ==> rows[i].date == d
    ensures CellAt(rows, field, d) ==
            if i < |rows| && field in rows[i].values then rows[i].values[field] else NaN
    decreases i
  {
    if i > 0 {
      CellIsFirstRows(rows[1..], field, d, i - 1);
    }
  }

  // ----- updating -----

  function Insert(d: int, dates: seq<int>): seq<int> {
    if dates == [] || d <= dates[0] then [d] + dates else [dates[0]] + Insert(d, dates[1..])
  }

  /** The symbol's own dates after its end, sorted, as often as they occur. */
  function NewDates(rows: seq<Row>, end: int): seq<int> {
    if rows == [] then []
    else if rows[0].date > end then Insert(rows[0].date, NewDates(rows[1..], end))
    else NewDates(rows[1..], end)
  }

  function NewRows(rows: seq<Row>, end: int): seq<Row> {
    if rows == [] then []
    else if rows[0].date > end then [rows[0]] + NewRows(rows[1..], end)
    else NewRows(rows[1..], end)
  }

  /** An existing symbol is appended to with its own new dates for a calendar; a field without a file is
      written afresh on that calendar. */
  function UpdatedFile(file: Option<BinFile>, rows: seq<Row>, end: int, field: string): Option<BinFile> {
    if NewDates(rows, end) == [] then file
    else
      var added, dates := NewRows(rows, end), NewDates(rows, end);
      if file == None then FullDump(added, dates, field)
      else if added == [] then file
      else Some(file.value + Cells(added, field, Merged(added, dates)))
  }

  lemma {:induction false} InsertContents(d: int, dates: seq<int>)
    ensures |Insert(d, dates)| == |dates| + 1
    ensures forall x :: x in Insert(d, dates) <==> x == d || x in dates
    decreases |dates|
  {
    if dates != [] {
      assert dates == [dates[0]] + dates[1..];
      InsertContents(d, dates[1..]);
    }
  }

  lemma {:induction false} SortedCons(first: int, rest: seq<int>)
    requires Sorted(rest) && forall x :: x in rest ==> first <= x
    ensures Sorted([first] + rest)
  {
    assert forall i :: 0 <= i < |rest| ==> rest[i] in rest;
  }

  lemma {:induction false} InsertSorted(d: int, dates: seq<int>)
    requires Sorted(dates)
    ensures Sorted(Insert(d, dates))
    decreases |dates|
  {
    if dates != [] && d > dates[0] {
      var rest := dates[1..];
      assert forall i :: 0 <= i < |rest| ==> rest[i] == dates[i + 1];
      InsertSorted(d, rest);
      InsertContents(d, rest);
      SortedCons(dates[0], Insert(d, rest));
    } else {
      SortedCons(d, dates);
    }
  }

  /** A row of the date is among the rows. */
  predicate Dated(rows: seq<Row>, d: int) {
    exists i :: 0 <= i < |rows| && rows[i].date == d
  }

  lemma {:induction false} DatedCons(first: Row, rest: seq<Row>, d: int)
    ensures Dated([first] + rest, d) <==> first.date == d || Dated(rest, d)
  {
    var all := [first] + rest;
    assert all[0] == first && forall i :: 0 <= i < |rest| ==> all[i + 1] == rest[i];
    if Dated(rest, d) {
      var i :| 0 <= i < |rest| && rest[i].date == d;
      assert all[i + 1].date == d;
    }
  }

  /** The new dates are those of the new rows. */
  lemma {:induction false} NewDatesExact(rows: seq<Row>, end: int)
    ensures Sorted(NewDates(rows, end)) && |NewDates(rows, end)| == |NewRows(rows, end)|
    ensures forall d :: d in NewDates(rows, end) <==> Dated(NewRows(rows, end), d)
    ensures forall i :: 0 <= i < |NewRows(rows, end)| ==> NewRows(rows, end)[i].date > end
    decreases |rows|
  {
    if rows != [] {
      NewDatesExact(rows[1..], end);
      if rows[0].date > end {
        var rest, dates := NewRows(rows[1..], end), NewDates(rows[1..], end);
        InsertSorted(rows[0].date, dates);
        InsertContents(rows[0].date, dates);
        hide Dated, Insert, Sorted;
        forall d
          ensures d in Insert(rows[0].date, dates) <==> Dated([rows[0]] + rest, d)
        {
          DatedCons(rows[0], rest, d);
        }
      }
    }
  }

  lemma {:induction false} BetweenAll(cal: seq<int>, lo: int, hi: int)
    requires forall d :: d in cal ==> lo <= d <= hi
    ensures Between(cal, lo, hi) == cal
    decreases |cal|
  {
    if cal != [] {
      assert cal[0] in cal && forall d :: d in cal[1..] ==> d in cal;
      BetweenAll(cal[1..], lo, hi);
    }
  }

  /** On its own new dates the merge drops nothing: an append adds one value per new row. */
  lemma {:induction false} MergedOwn(rows: seq<Row>, end: int)
    requires NewDates(rows, end) != []
    ensures NewRows(rows, end) != []
    ensures Merged(NewRows(rows, end), NewDates(rows, end)) == NewDates(rows, end)
  {
    NewDatesExact(rows, end);
    var added, dates := NewRows(rows, end), NewDates(rows, end);
    assert dates[0] in dates;
    forall d | d in dates
      ensures MinDate(added) <= d <= MaxDate(added)
    {
      var i :| 0 <= i < |added| && added[i].date == d;
    }
    BetweenAll(dates, MinDate(added), MaxDate(added));
  }

  lemma {:induction false} BetweenAppend(a: seq<int>, b: seq<int>, lo: int, hi: int)
    ensures Between(a + b, lo, hi) == Between(a, lo, hi) + Between(b, lo, hi)
    decreases |a|
  {
    if a == [] {
      assert a + b == b;
    } else {
      assert (a + b)[0] == a[0] && (a + b)[1..] == a[1..] + b;
      BetweenAppend(a[1..], b, lo, hi);
    }
  }

  lemma {:induction false} BetweenNone(cal: seq<int>, lo: int, hi: int)
    requires forall d :: d in cal ==> d < lo || d > hi
    ensures Between(cal, lo, hi) == []
    decreases |cal|
  {
    if cal != [] {
      assert cal[0] in cal && forall d :: d in cal[1..] ==> d in cal;
      BetweenNone(cal[1..], lo, hi);
    }
  }

  lemma {:induction false} BetweenSplit(cal: seq<int>, lo: int, mid: int, hi: int)
    requires Sorted(cal) && lo <= mid + 1 && mid <= hi
    ensures Between(cal, lo, hi) == Between(cal, lo, mid) + Between(cal, mid + 1, hi)
    decreases |cal|
  {
    if cal != [] {
      var rest := cal[1..];
      assert forall i :: 0 <= i < |rest| ==> rest[i] == cal[i + 1];
      BetweenSplit(rest, lo, mid, hi);
      if cal[0] > mid {
        assert forall d :: d in rest ==> d >= cal[0];
        BetweenNone(rest, lo, mid);
      }
    }
  }

  /** A later calendar only adds points after the earlier one. */
  predicate Extends(cal: seq<int>, cal': seq<int>) {
    cal <= cal' && StrictlySorted(cal') && cal != []
  }

  lemma {:induction false} ExtendedSorted(cal: seq<int>, cal': seq<int>)
    requires Extends(cal, cal')
    ensures StrictlySorted(cal')
  {
  }

  /** Up to an end within the earlier calendar, both have the same points. */
  lemma {:induction false} BetweenExtended(cal: seq<int>, cal': seq<int>, lo: int, end: int)
    requires Extends(cal, cal') && end <= cal[|cal| - 1]
    ensures Between(cal', lo, end) == Between(cal, lo, end)
  {
    var added := cal'[|cal|..];
    assert cal' == cal + added;
    forall d | d in added
      ensures d > end
    {
      var i :| 0 <= i < |added| && added[i] == d;
      assert cal'[|cal| + i] == d && cal'[|cal| - 1] == cal[|cal| - 1];
    }
    BetweenNone(added, lo, end);
    BetweenAppend(cal, added, lo, end);
  }

  lemma {:induction false} FirstIndexExtended(cal: seq<int>, cal': seq<int>, d: int)
    requires Extends(cal, cal') && d in cal
    ensures d in cal' && FirstIndex(cal', d) == FirstIndex(cal, d)
  {
    var k := FirstIndex(cal, d);
    assert cal'[k] == d;
    FirstIndexStrict(cal', k);
  }

  // ----- an update against a full dump -----

  lemma {:induction false} LookupAppend(a: seq<Row>, b: seq<Row>, d: int)
    ensures Lookup(a + b, d) == if Lookup(a, d).Some? then Lookup(a, d) else Lookup(b, d)
    decreases |a|
  {
    if a == [] {
      assert a + b == b;
    } else {
      assert (a + b)[0] == a[0] && (a + b)[1..] == a[1..] + b;
      LookupAppend(a[1..], b, d);
    }
  }

  lemma {:induction false} LookupNone(rows: seq<Row>, d: int)
    requires forall i :: 0 <= i < |rows| ==> rows[i].date != d
    ensures Lookup(rows, d) == None
    decreases |rows|
  {
    if rows != [] {
      LookupNone(rows[1..], d);
    }
  }

  lemma {:induction false} MaxAppend(a: seq<Row>, b: seq<Row>)
    requires a != [] && b != []
    ensures MaxDate(a + b) == MaxInt(MaxDate(a), MaxDate(b))
    ensures MinDate(a + b) == MinInt(MinDate(a), MinDate(b))
  {
    var all := a + b;
    assert forall i :: 0 <= i < |a| ==> all[i] == a[i];
    assert forall i :: 0 <= i < |b| ==> all[|a| + i] == b[i];
  }

  /** The state an update starts from: the file of a full dump of the old rows, which end within the
      old calendar. */
  predicate Settled(rows: seq<Row>, cal: seq<int>) {
    && rows != [] && StrictlySorted(cal) && cal != []
    && Merged(rows, cal) != [] && MaxDate(rows) <= cal[|cal| - 1]
  }

  lemma {:induction false} MergedGrows(before: seq<Row>, added: seq<Row>, cal: seq<int>, cal': seq<int>)
    requires Settled(before, cal) && Extends(cal, cal') && added != []
    requires forall i :: 0 <= i < |added| ==> added[i].date > MaxDate(before)
    ensures Merged(before + added, cal') ==
            Merged(before, cal) + Between(cal', MaxDate(before) + 1, MaxDate(added))
  {
    hide MinDate, MaxDate, Between;
    MaxAppend(before, added);
    RangeOf(before);
    RangeOf(added);
    BetweenSplit(cal', MinDate(before), MaxDate(before), MaxDate(added));
    BetweenExtended(cal, cal', MinDate(before), MaxDate(before));
  }

  lemma {:induction false} RangeOf(rows: seq<Row>)
    requires rows != []
    ensures MinDate(rows) <= rows[0].date <= MaxDate(rows)
    ensures Dated(rows, MinDate(rows)) && Dated(rows, MaxDate(rows))
  {
    hide MinDate, MaxDate;
  }

  /** A full dump of old and new rows is the old file, then the new rows on the calendar after the end. */
  lemma {:induction false} FullDumpGrows(
      before: seq<Row>, added: seq<Row>, cal: seq<int>, cal': seq<int>, field: string)
    requires Settled(before, cal) && Extends(cal, cal') && added != []
    requires forall i :: 0 <= i < |added| ==> added[i].date > MaxDate(before)
    ensures FullDump(before, cal, field).Some? && |FullDump(before, cal, field).value| > 1
    ensures FullDump(before + added, cal', field) ==
            Some(FullDump(before, cal, field).value
                 + Cells(added, field, Between(cal', MaxDate(before) + 1, MaxDate(added))))
  {
    hide Merged, Cells, MinDate, MaxDate, Between, FirstIndex;
    var first, second := Merged(before, cal), Between(cal', MaxDate(before) + 1, MaxDate(added));
    MergedGrows(before, added, cal, cal');
    BetweenFrom(cal', MaxDate(before) + 1, MaxDate(added));
    CellsSplit(before, added, field, first, second);
    assert first[0] in first;
    FirstIndexExtended(cal, cal', first[0]);
    assert (first + second)[0] == first[0];
    assert Header(cal', first + second) == Header(cal, first);
    assert Header(cal, first) + (Cells(before, field, first) + Cells(added, field, second))
        == Header(cal, first) + Cells(before, field, first) + Cells(added, field, second);
  }

  lemma {:induction false} CellsSplit(
      before: seq<Row>, added: seq<Row>, field: string, first: seq<int>, second: seq<int>)
    requires before != [] && forall i :: 0 <= i < |added| ==> added[i].date > MaxDate(before)
    requires (forall d :: d in first ==> d <= MaxDate(before)) && (forall d :: d in second ==> d > MaxDate(before))
    ensures Cells(before + added, field, first + second) == Cells(before, field, first) + Cells(added, field, second)
  {
    var dates := first + second;
    forall i | 0 <= i < |dates|
      ensures Cells(before + added, field, dates)[i] == (Cells(before, field, first) + Cells(added, field, second))[i]
    {
      var d := dates[i];
      LookupAppend(before, added, d);
      if i < |first| {
        assert d == first[i] && d in first;
        LookupNone(added, d);
      } else {
        assert d == second[i - |first|] && d in second;
        LookupNone(before, d);
      }
    }
  }

  lemma {:induction false} FullDumpStands(rows: seq<Row>, cal: seq<int>, cal': seq<int>, field: string)
    requires Settled(rows, cal) && Extends(cal, cal')
    ensures FullDump(rows, cal', field) == FullDump(rows, cal, field)
  {
    BetweenExtended(cal, cal', MinDate(rows), MaxDate(rows));
    BetweenFrom(cal, MinDate(rows), MaxDate(rows));
    FirstIndexExtended(cal, cal', Merged(rows, cal)[0]);
  }

  /** A strictly sorted part of a strictly sorted list is the whole of it when it is as long. */
  lemma {:induction false} SameLengthSame(part: seq<int>, whole: seq<int>)
    requires StrictlySorted(part) && StrictlySorted(whole) && (forall d :: d in part ==> d in whole)
    ensures |part| <= |whole| && (|part| == |whole| ==> part == whole)
    decreases |whole|
  {
    if part != [] {
      var n, m := |part| - 1, |whole| - 1;
      assert part[n] in part;
      var k :| 0 <= k < |whole| && whole[k] == part[n];
      forall d | d in part[..n]
        ensures d in whole[..k]
      {
        var i :| 0 <= i < n && part[i] == d;
        assert part[i] in part;
        var j :| 0 <= j < |whole| && whole[j] == d;
        assert j < k;
        assert whole[..k][j] == d;
      }
      SameLengthSame(part[..n], whole[..k]);
      if |part| == |whole| {
        assert k == m;
        assert part == part[..n] + [part[n]] && whole == whole[..m] + [whole[m]];
      }
    }
  }

  /** The new dates are a gapless run of the calendar after the end. */
  predicate Gapless(rows: seq<Row>, end: int, cal: seq<int>) {
    NewRows(rows, end) != [] && NewDates(rows, end) == Between(cal, end + 1, MaxDate(NewRows(rows, end)))
  }

  lemma {:induction false} BetweenStrict(cal: seq<int>, lo: int, hi: int)
    requires StrictlySorted(cal)
    ensures StrictlySorted(Between(cal, lo, hi))
    decreases |cal|
  {
    if cal != [] {
      var rest := cal[1..];
      assert forall i :: 0 <= i < |rest| ==> rest[i] == cal[i + 1];
      BetweenStrict(rest, lo, hi);
      BetweenFrom(rest, lo, hi);
      var later := Between(rest, lo, hi);
      forall i | 0 <= i < |later|
        ensures cal[0] < later[i]
      {
        assert later[i] in later;
        var j :| 0 <= j < |rest| && rest[j] == later[i];
      }
    }
  }

  /** New dates on the calendar lie in the run of the calendar after the end, and distinct ones fill it
      exactly when they are as many. */
  lemma {:induction false} NewDatesInRun(rows: seq<Row>, end: int, cal: seq<int>)
    requires NewDates(rows, end) != [] && StrictlySorted(NewDates(rows, end)) && StrictlySorted(cal)
    requires forall d :: d in NewDates(rows, end) ==> d in cal
    ensures NewRows(rows, end) != []
    ensures var dates, run := NewDates(rows, end), Between(cal, end + 1, MaxDate(NewRows(rows, end)));
            |dates| <= |run| && (|dates| == |run| ==> dates == run)
  {
    NewDatesExact(rows, end);
    hide NewRows, NewDates, MaxDate, Between;
    var added, dates := NewRows(rows, end), NewDates(rows, end);
    BetweenFrom(cal, end + 1, MaxDate(added));
    BetweenStrict(cal, end + 1, MaxDate(added));
    forall d | d in dates
      ensures d in Between(cal, end + 1, MaxDate(added))
    {
      assert Dated(added, d);
      var i :| 0 <= i < |added| && added[i].date == d;
    }
    SameLengthSame(dates, Between(cal, end + 1, MaxDate(added)));
  }

  /** What an update writes: an append to a file, or a file of its own with header 0. */
  lemma {:induction false} UpdateWrites(file: Option<BinFile>, rows: seq<Row>, end: int, field: string)
    requires NewDates(rows, end) != []
    ensures var cells := Cells(NewRows(rows, end), field, NewDates(rows, end));
            UpdatedFile(file, rows, end, field) ==
            Some(if file == None then [Num(0.0)] + cells else file.value + cells)
  {
    MergedOwn(rows, end);
    hide NewRows, NewDates, Merged, Cells;
    assert FirstIndex(NewDates(rows, end), NewDates(rows, end)[0]) == 0;
  }

  lemma {:induction false} NewRowsAfter(rows: seq<Row>, end: int)
    requires NewDates(rows, end) != []
    ensures NewRows(rows, end) != [] && forall i :: 0 <= i < |NewRows(rows, end)| ==> NewRows(rows, end)[i].date > end
  {
    hide NewRows, NewDates;
    NewDatesExact(rows, end);
  }

  /** Whatever the new dates are, appending gives the file of a full dump over the extended calendar if
      and only if their values are those of the run of the calendar after the old end. */
  lemma {:induction false} UpdateAgainstRun(
      before: seq<Row>, rows: seq<Row>, cal: seq<int>, cal': seq<int>, field: string)
    requires Settled(before, cal) && Extends(cal, cal') && NewDates(rows, MaxDate(before)) != []
    ensures NewRows(rows, MaxDate(before)) != []
    ensures var end := MaxDate(before);
            var added := NewRows(rows, end);
            (UpdatedFile(FullDump(before, cal, field), rows, end, field) == FullDump(before + added, cal', field))
            <==> Cells(added, field, NewDates(rows, end)) ==
                 Cells(added, field, Between(cal', end + 1, MaxDate(added)))
  {
    hide FullDump, NewRows, NewDates, Between, Merged, MaxDate, Settled, UpdatedFile, Cells;
    var end := MaxDate(before);
    var added, dates := NewRows(rows, end), NewDates(rows, end);
    NewRowsAfter(rows, end);
    FullDumpGrows(before, added, cal, cal', field);
    UpdateWrites(FullDump(before, cal, field), rows, end, field);
    var file, run := FullDump(before, cal, field).value, Between(cal', end + 1, MaxDate(added));
    PrefixCancels(file, Cells(added, field, dates), Cells(added, field, run));
  }

  /** For distinct new dates on the calendar, appending gives the file of a full dump over the extended
      calendar if and only if they leave no gap after the old end. */
  lemma {:induction false} UpdateExact(before: seq<Row>, rows: seq<Row>, cal: seq<int>, cal': seq<int>, field: string)
    requires Settled(before, cal) && Extends(cal, cal')
    requires var dates := NewDates(rows, MaxDate(before));
             dates != [] && StrictlySorted(dates) && forall d :: d in dates ==> d in cal'
    ensures var end := MaxDate(before);
            (UpdatedFile(FullDump(before, cal, field), rows, end, field) ==
             FullDump(before + NewRows(rows, end), cal', field))
            <==> Gapless(rows, end, cal')
  {
    hide FullDump, NewRows, NewDates, Between, Merged, MaxDate, Settled, UpdatedFile, Cells, StrictlySorted;
    UpdateAgainstRun(before, rows, cal, cal', field);
    assert StrictlySorted(cal');
    NewDatesInRun(rows, MaxDate(before), cal');
  }

  /** A field that an existing symbol did not have is written with header 0 and the new dates alone, and is
      never the file of a full dump. */
  lemma {:induction false} NewFieldMisplaced(
      before: seq<Row>, rows: seq<Row>, cal: seq<int>, cal': seq<int>, field: string)
    requires Settled(before, cal) && Extends(cal, cal')
    requires var dates := NewDates(rows, MaxDate(before));
             dates != [] && StrictlySorted(dates) && forall d :: d in dates ==> d in cal'
    ensures var end := MaxDate(before);
            var file := UpdatedFile(None, rows, end, field);
            && file.Some? && file.value != [] && file.value[0] == Num(0.0)
            && file != FullDump(before + NewRows(rows, end), cal', field)
  {
    hide FullDump, NewRows, NewDates, Between, Merged, MaxDate, Settled, UpdatedFile, Cells, StrictlySorted;
    var end := MaxDate(before);
    var added := NewRows(rows, end);
    NewRowsAfter(rows, end);
    FullDumpGrows(before, added, cal, cal', field);
    UpdateWrites(None, rows, end, field);
    assert StrictlySorted(cal');
    NewDatesInRun(rows, end, cal');
    assert |FullDump(before + added, cal', field).value| ==
           |FullDump(before, cal, field).value| + |Between(cal', end + 1, MaxDate(added))|;
  }

  predicate SameElements(a: seq<int>, b: seq<int>) {
    (forall d :: d in a ==> d in b) && (forall d :: d in b ==> d in a)
  }

  lemma {:induction false} HeadIn(run: seq<int>)
    ensures run == [] || exists d :: d in run
  {
    if run != [] {
      var d := run[0];
      assert d in run;
    }
  }

  /** A sorted list with the elements of a strictly sorted one is longer, unless nothing repeats. */
  lemma {:induction false} RepeatsAreLonger(dates: seq<int>, run: seq<int>)
    requires Sorted(dates) && StrictlySorted(run) && SameElements(dates, run)
    ensures |dates| >= |run| && (|dates| == |run| <==> StrictlySorted(dates))
    decreases |dates|
  {
    HeadIn(run);
    if dates != [] {
      var n, m := |dates| - 1, |run| - 1;
      SortedFront(dates);
      if n > 0 && dates[n - 1] == dates[n] {
        RepeatLast(dates, run);
        hide SameElements, Sorted;
        RepeatsAreLonger(dates[..n], run);
      } else {
        DropLast(dates, run);
        hide SameElements, Sorted, StrictlySorted;
        RepeatsAreLonger(dates[..n], run[..m]);
      }
    }
  }

  lemma {:induction false} SortedFront(dates: seq<int>)
    requires Sorted(dates) && dates != []
    ensures Sorted(dates[..|dates| - 1])
    ensures StrictlySorted(dates) <==>
            StrictlySorted(dates[..|dates| - 1]) && (|dates| > 1 ==> dates[|dates| - 2] < dates[|dates| - 1])
  {
    var n := |dates| - 1;
    var front := dates[..n];
    assert forall i :: 0 <= i < n ==> front[i] == dates[i];
    if StrictlySorted(front) && n > 0 && dates[n - 1] < dates[n] {
      assert forall i :: 0 <= i < n ==> dates[i] <= dates[n - 1];
    }
  }

  lemma {:induction false} RepeatLast(dates: seq<int>, run: seq<int>)
    requires |dates| > 1 && dates[|dates| - 2] == dates[|dates| - 1] && SameElements(dates, run)
    ensures SameElements(dates[..|dates| - 1], run)
  {
    var n := |dates| - 1;
    forall d | d in dates
      ensures d in dates[..n]
    {
      var i :| 0 <= i < |dates| && dates[i] == d;
      assert dates[..n][if i < n then i else n - 1] == d;
    }
  }

  lemma {:induction false} DropLast(dates: seq<int>, run: seq<int>)
    requires Sorted(dates) && StrictlySorted(run) && dates != [] && SameElements(dates, run)
    requires |dates| > 1 ==> dates[|dates| - 2] < dates[|dates| - 1]
    ensures run != [] && SameElements(dates[..|dates| - 1], run[..|run| - 1]) && StrictlySorted(run[..|run| - 1])
  {
    var n, m := |dates| - 1, |run| - 1;
    assert dates[n] in run && run[m] in dates;
    var at :| 0 <= at <= n && dates[at] == run[m];
    var k :| 0 <= k <= m && run[k] == dates[n];
    assert dates[n] == run[m];
    forall d
      ensures d in dates[..n] <==> d in run[..m]
    {
      if d in dates[..n] {
        var i :| 0 <= i < n && dates[i] == d;
        assert dates[i] <= dates[n - 1] < dates[n] && d in dates;
        var j :| 0 <= j <= m && run[j] == d;
        assert run[..m][j] == d;
      }
      if d in run[..m] {
        var j :| 0 <= j < m && run[j] == d;
        assert d in run && d < run[m];
        var i :| 0 <= i <= n && dates[i] == d;
        assert dates[..n][i] == d;
      }
    }
  }

  /** The new dates are those of the run of the calendar after the end, in whatever number. */
  predicate RunCovered(rows: seq<Row>, end: int, cal: seq<int>) {
    NewRows(rows, end) != [] && SameElements(NewDates(rows, end), Between(cal, end + 1, MaxDate(NewRows(rows, end))))
  }

  lemma {:induction false} CoveredRun(rows: seq<Row>, end: int, cal: seq<int>)
    requires RunCovered(rows, end, cal) && StrictlySorted(cal)
    ensures NewRows(rows, end) != []
    ensures var run := Between(cal, end + 1, MaxDate(NewRows(rows, end)));
            SameElements(NewDates(rows, end), run) && Sorted(NewDates(rows, end)) && StrictlySorted(run)
  {
    hide NewRows, NewDates, Between, SameElements;
    NewDatesExact(rows, end);
    BetweenStrict(cal, end + 1, MaxDate(NewRows(rows, end)));
  }

  /** For new dates that leave no gap, appending gives the file of a full dump if and only if no date
      repeats: a repeated date is appended as often as it occurs, and shifts what follows. */
  lemma {:induction false} DuplicateDateShifts(
      before: seq<Row>, rows: seq<Row>, cal: seq<int>, cal': seq<int>, field: string)
    requires Settled(before, cal) && Extends(cal, cal') && NewDates(rows, MaxDate(before)) != []
    requires RunCovered(rows, MaxDate(before), cal')
    ensures var end := MaxDate(before);
            UpdatedFile(FullDump(before, cal, field), rows, end, field) ==
            FullDump(before + NewRows(rows, end), cal', field)
            <==> StrictlySorted(NewDates(rows, end))
  {
    hide *;
    var end := MaxDate(before);
    var dates := NewDates(rows, end);
    ExtendedSorted(cal, cal');
    UpdateAgainstRun(before, rows, cal, cal', field);
    CoveredRun(rows, end, cal');
    var run := Between(cal', end + 1, MaxDate(NewRows(rows, end)));
    RepeatsAreLonger(dates, run);
    if StrictlySorted(dates) {
      SameWhenStrict(dates, run);
    }
  }

  lemma {:induction false} SameWhenStrict(dates: seq<int>, run: seq<int>)
    requires StrictlySorted(dates) && StrictlySorted(run) && SameElements(dates, run)
    ensures dates == run
  {
    SameLengthSame(dates, run);
    SameLengthSame(run, dates);
  }

  // ----- sequences of updates -----

  /** The rows of one update, and the calendar it extends the store to. */
  datatype Batch = Batch(rows: seq<Row>, cal: seq<int>)

  /** The file, the rows it stands for, and the calendar, after some updates. */
  datatype Store = Store(file: Option<BinFile>, rows: seq<Row>, cal: seq<int>)

  function Updated(s: Store, b: Batch, field: string): Store
    requires s.rows != []
  {
    var end := MaxDate(s.rows);
    Store(UpdatedFile(s.file, b.rows, end, field), s.rows + NewRows(b.rows, end), b.cal)
  }

  function AfterUpdates(s: Store, batches: seq<Batch>, field: string): Store
    requires s.rows != []
    decreases |batches|
  {
    if batches == [] then s else AfterUpdates(Updated(s, batches[0], field), batches[1..], field)
  }

  /** Each update extends the calendar, and its new dates, if any, run on from the symbol's end. */
  predicate AllGapless(s: Store, batches: seq<Batch>, field: string)
    requires s.rows != []
    decreases |batches|
  {
    batches == [] ||
    var end := MaxDate(s.rows);
    && Extends(s.cal, batches[0].cal)
    && (NewDates(batches[0].rows, end) == [] || Gapless(batches[0].rows, end, batches[0].cal))
    && AllGapless(Updated(s, batches[0], field), batches[1..], field)
  }

  lemma {:induction false} NewRowsKeepLatest(rows: seq<Row>, end: int, i: nat)
    requires i < |rows| && rows[i].date > end
    ensures rows[i] in NewRows(rows, end)
    decreases |rows|
  {
    if i > 0 {
      NewRowsKeepLatest(rows[1..], end, i - 1);
    }
  }

  lemma {:induction false} NewRowsFrom(rows: seq<Row>, end: int)
    ensures forall r :: r in NewRows(rows, end) ==> r in rows
    decreases |rows|
  {
    if rows != [] {
      NewRowsFrom(rows[1..], end);
      assert rows == [rows[0]] + rows[1..];
    }
  }

  /** The end recorded for the symbol, the last date of the source rows, is the end of the stored rows. */
  lemma {:induction false} EndRecorded(before: seq<Row>, rows: seq<Row>)
    requires before != [] && rows != [] && NewDates(rows, MaxDate(before)) != []
    ensures MaxDate(before + NewRows(rows, MaxDate(before))) == MaxDate(rows)
  {
    hide MaxDate, MinDate, NewRows, NewDates;
    var end := MaxDate(before);
    var added := NewRows(rows, end);
    NewRowsAfter(rows, end);
    NewRowsFrom(rows, end);
    MaxAppend(before, added);
    assert added[0] in added;
    var i :| 0 <= i < |rows| && rows[i] == added[0];
    var j :| 0 <= j < |rows| && rows[j].date == MaxDate(rows);
    assert added[0].date > end && rows[i].date <= MaxDate(rows);
    NewRowsKeepLatest(rows, end, j);
    var k :| 0 <= k < |added| && added[k] == rows[j];
    var m :| 0 <= m < |added| && added[m].date == MaxDate(added);
    assert added[m] in rows;
  }

  lemma {:induction false} QuietUpdate(s: Store, b: Batch, field: string)
    requires Settled(s.rows, s.cal) && s.file == FullDump(s.rows, s.cal, field) && Extends(s.cal, b.cal)
    requires NewDates(b.rows, MaxDate(s.rows)) == []
    ensures var t := Updated(s, b, field);
            Settled(t.rows, t.cal) && t.file == FullDump(t.rows, t.cal, field)
  {
    hide MaxDate, MinDate, FullDump, NewRows, NewDates, Between;
    NewDatesExact(b.rows, MaxDate(s.rows));
    assert s.rows + NewRows(b.rows, MaxDate(s.rows)) == s.rows;
    BetweenExtended(s.cal, b.cal, MinDate(s.rows), MaxDate(s.rows));
    FullDumpStands(s.rows, s.cal, b.cal, field);
    assert s.cal[|s.cal| - 1] == b.cal[|s.cal| - 1];
  }

  lemma {:induction false} GaplessSettles(before: seq<Row>, rows: seq<Row>, cal: seq<int>, cal': seq<int>)
    requires Settled(before, cal) && Extends(cal, cal')
    requires NewDates(rows, MaxDate(before)) != [] && Gapless(rows, MaxDate(before), cal')
    ensures Settled(before + NewRows(rows, MaxDate(before)), cal')
  {
    hide MaxDate, MinDate, NewRows, NewDates, Between, Merged;
    var end := MaxDate(before);
    var added := NewRows(rows, end);
    NewRowsAfter(rows, end);
    NewDatesExact(rows, end);
    MergedGrows(before, added, cal, cal');
    MaxAppend(before, added);
    RangeOf(added);
    BetweenFrom(cal', end + 1, MaxDate(added));
    assert MaxDate(added) in NewDates(rows, end);
    assert MaxDate(added) in cal';
  }

  lemma {:induction false} UpdateSettles(s: Store, b: Batch, field: string)
    requires Settled(s.rows, s.cal) && s.file == FullDump(s.rows, s.cal, field) && Extends(s.cal, b.cal)
    requires NewDates(b.rows, MaxDate(s.rows)) == [] || Gapless(b.rows, MaxDate(s.rows), b.cal)
    ensures var t := Updated(s, b, field);
            Settled(t.rows, t.cal) && t.file == FullDump(t.rows, t.cal, field)
  {
    hide MaxDate, FullDump, NewRows, NewDates, Between, Cells, Settled, UpdatedFile, Extends;
    var end := MaxDate(s.rows);
    if NewDates(b.rows, end) == [] {
      QuietUpdate(s, b, field);
    } else {
      NewRowsAfter(b.rows, end);
      UpdateWrites(s.file, b.rows, end, field);
      FullDumpGrows(s.rows, NewRows(b.rows, end), s.cal, b.cal, field);
      GaplessSettles(s.rows, b.rows, s.cal, b.cal);
    }
  }

  /** After any number of such updates the file is that of one full dump of all rows. */
  lemma {:induction false} UpdatesAreFullDump(s: Store, batches: seq<Batch>, field: string)
    requires Settled(s.rows, s.cal) && s.file == FullDump(s.rows, s.cal, field) && AllGapless(s, batches, field)
    ensures var t := AfterUpdates(s, batches, field);
            t.file == FullDump(t.rows, t.cal, field)
    decreases |batches|
  {
    if batches != [] {
      UpdateSettles(s, batches[0], field);
      hide FullDump, Updated, Settled, Gapless, Extends;
      UpdatesAreFullDump(Updated(s, batches[0], field), batches[1..], field);
    }
  }

  // ----- the object -----

  /** What the instruments file records of a symbol. */
  datatype Span = Span(start: int, end: int)

  type Files = map<(string, string), BinFile>

  /** One field of one symbol: appended to when it exists and the mode is to update, else written afresh. */
  function WriteField(files: Files, key: (string, string), header: BinFile, cells: seq<Cell>, append: bool): Files {
    if append && key in files then files[key := files[key] + cells] else files[key := header + cells]
  }

  function WriteFields(
      files: Files, symbol: string, rows: seq<Row>, cal: seq<int>, fields: seq<string>, append: bool): Files
    requires rows != [] && Merged(rows, cal) != []
  {
    if fields == [] then files
    else
      var n, dates := |fields| - 1, Merged(rows, cal);
      WriteField(WriteFields(files, symbol, rows, cal, fields[..n], append), (symbol, fields[n]),
                 Header(cal, dates), Cells(rows, fields[n], dates), append)
  }

  function DataToBin(
      files: Files, symbol: string, rows: seq<Row>, cal: seq<int>, fields: seq<string>, append: bool): Files {
    if rows == [] || cal == [] || Merged(rows, cal) == [] then files
    else WriteFields(files, symbol, rows, cal, fields, append)
  }

  function FileOf(files: Files, symbol: string, field: string): Option<BinFile> {
    if (symbol, field) in files then Some(files[(symbol, field)]) else None
  }

  predicate Distinct(fields: seq<string>) {
    forall i, j :: 0 <= i < j < |fields| ==> fields[i] != fields[j]
  }

  /** Writing the fields of a symbol touches each of its files once, and no other. */
  lemma {:induction false} WriteFieldsAt(
      files: Files, symbol: string, rows: seq<Row>, cal: seq<int>, fields: seq<string>, append: bool,
      other: string, field: string)
    requires rows != [] && Merged(rows, cal) != [] && Distinct(fields)
    ensures var dates := Merged(rows, cal);
            FileOf(WriteFields(files, symbol, rows, cal, fields, append), other, field) ==
            if other == symbol && field in fields then
              Some((if append && (symbol, field) in files then files[(symbol, field)] else Header(cal, dates))
                   + Cells(rows, field, dates))
            else FileOf(files, other, field)
    decreases |fields|
  {
    hide Merged, Cells, Header;
    if fields != [] {
      var n := |fields| - 1;
      assert fields == fields[..n] + [fields[n]] && fields[n] !in fields[..n];
      WriteFieldsAt(files, symbol, rows, cal, fields[..n], append, other, field);
      WriteFieldsAt(files, symbol, rows, cal, fields[..n], append, symbol, fields[n]);
    }
  }

  /** A dump of a symbol in full, or of a new symbol in an update, writes the file of each field afresh. */
  lemma {:induction false} DumpWritesFull(
      files: Files, symbol: string, rows: seq<Row>, cal: seq<int>, fields: seq<string>, append: bool,
      field: string)
    requires Distinct(fields) && field in fields && FullDump(rows, cal, field).Some?
    requires append ==> (symbol, field) !in files
    ensures FileOf(DataToBin(files, symbol, rows, cal, fields, append), symbol, field) == FullDump(rows, cal, field)
  {
    hide Cells, Header, Merged, WriteFields;
    assert cal != [] by {
      assert Merged(rows, cal)[0] in Merged(rows, cal);
    }
    WriteFieldsAt(files, symbol, rows, cal, fields, append, symbol, field);
  }

  /** What an update does to the files of a symbol that ended at a date. */
  function UpdateSymbolFiles(files: Files, symbol: string, rows: seq<Row>, end: int, fields: seq<string>): Files {
    DataToBin(files, symbol, NewRows(rows, end), NewDates(rows, end), fields, true)
  }

  lemma {:induction false} UpdateWritesFiles(
      files: Files, symbol: string, rows: seq<Row>, end: int, fields: seq<string>, field: string)
    requires Distinct(fields) && field in fields
    ensures FileOf(UpdateSymbolFiles(files, symbol, rows, end, fields), symbol, field) ==
            UpdatedFile(FileOf(files, symbol, field), rows, end, field)
  {
    hide Cells, Header, Merged, WriteFields, NewRows, NewDates;
    if NewDates(rows, end) == [] {
    } else {
      MergedOwn(rows, end);
      WriteFieldsAt(files, symbol, NewRows(rows, end), NewDates(rows, end), fields, true, symbol, field);
    }
  }

  class DumpData {
    var files: Files
    var instruments: map<string, Span>
    var calendar: seq<int>    // of the store, with what this dump adds
    const updating: bool

    constructor (files: Files, instruments: map<string, Span>, calendar: seq<int>, updating: bool)
      ensures this.files == files && this.instruments == instruments
      ensures this.calendar == calendar && this.updating == updating
    {
      this.files, this.instruments, this.calendar, this.updating := files, instruments, calendar, updating;
    }

    /** The rows of a symbol on the calendar, written field by field. */
    method WriteBin(symbol: string, rows: seq<Row>, cal: seq<int>, fields: seq<string>)
      modifies `files
      ensures files == DataToBin(old(files), symbol, rows, cal, fields, updating)
    {
      hide WriteFields, Merged, Cells, Header;
      if rows == [] || cal == [] {
        return;
      }
      var dates := Merged(rows, cal);
      if dates == [] {
        return;
      }
      assert dates[0] in dates;
      var header := Header(cal, dates);
      WriteNothing(files, symbol, rows, cal, updating);
      for i := 0 to |fields|
        invariant files == WriteFields(old(files), symbol, rows, cal, fields[..i], updating)
      {
        var key, cells := (symbol, fields[i]), Cells(rows, fields[i], dates);
        WriteOneMore(old(files), symbol, rows, cal, fields, i, updating);
        if key in files && updating {
          files := files[key := files[key] + cells];
        } else {
          files := files[key := header + cells];
        }
      }
      assert fields[..|fields|] == fields;
    }

    /** One symbol of an update: a known one is extended past its end, a new one is written in full. */
    method UpdateSymbol(symbol: string, rows: seq<Row>, fields: seq<string>)
      requires updating
      modifies `files, `instruments
      ensures rows == [] ==> files == old(files) && instruments == old(instruments)
      ensures rows != [] && symbol in old(instruments) ==>
                var end := old(instruments)[symbol].end;
                && files == UpdateSymbolFiles(old(files), symbol, rows, end, fields)
                && instruments == if NewDates(rows, end) == [] then old(instruments)
                                  else old(instruments)[symbol := Span(old(instruments)[symbol].start, MaxDate(rows))]
      ensures rows != [] && symbol !in old(instruments) ==>
                && files == DataToBin(old(files), symbol, rows, calendar, fields, true)
                && instruments == old(instruments)[symbol := Span(MinDate(rows), MaxDate(rows))]
    {
      hide WriteFields, Merged, NewRows, NewDates, MaxDate, MinDate;
      if rows == [] {
        return;
      }
      if symbol in instruments {
        var span := instruments[symbol];
        var dates := NewDates(rows, span.end);
        if dates != [] {
          instruments := instruments[symbol := span.(end := MaxDate(rows))];
          WriteBin(symbol, NewRows(rows, span.end), dates, fields);
        }
      } else {
        instruments := instruments[symbol := Span(MinDate(rows), MaxDate(rows))];
        WriteBin(symbol, rows, calendar, fields);
      }
    }
  }

  lemma {:induction false} WriteNothing(files: Files, symbol: string, rows: seq<Row>, cal: seq<int>, append: bool)
    requires rows != [] && Merged(rows, cal) != []
    ensures WriteFields(files, symbol, rows, cal, [], append) == files
  {
  }

  lemma {:induction false} WriteOneMore(
      files: Files, symbol: string, rows: seq<Row>, cal: seq<int>, fields: seq<string>, i: nat, append: bool)
    requires rows != [] && Merged(rows, cal) != [] && i < |fields|
    ensures fields[..0] == []
    ensures WriteFields(files, symbol, rows, cal, fields[..i + 1], append) ==
            WriteField(WriteFields(files, symbol, rows, cal, fields[..i], append), (symbol, fields[i]),
                       Header(cal, Merged(rows, cal)), Cells(rows, fields[i], Merged(rows, cal)), append)
  {
    hide WriteField, Merged, Cells, Header;
    assert fields[..i + 1][..i] == fields[..i];
  }
}
