/** The on-disk dataset cache (DiskDatasetCache in quant_master/data/cache.py): a data file sorted
    by date and an index of row blocks, one block per date, both patched on update. */
module DatasetCache {
  import opened Common
  import opened Search
  import opened Calendars

  datatype Row = Row(date: int, instrument: string, value: Cell)

  /** Rows [start, end) of the data file belong to the date. */
  datatype Entry = Entry(date: int, start: int, end: int)

  predicate SortedRows(rows: seq<Row>) {
    forall i, j :: 0 <= i < j < |rows| ==> rows[i].date <= rows[j].date
  }

  /** The number of leading rows of one date. */
  function BlockLen(rows: seq<Row>): (k: nat)
    requires rows != []
    ensures 1 <= k <= |rows|
    ensures forall j :: 0 <= j < k ==> rows[j].date == rows[0].date
    ensures k < |rows| ==> rows[k].date != rows[0].date
  {
    if |rows| == 1 || rows[1].date != rows[0].date then 1 else 1 + BlockLen(rows[1..])
  }

  /** The index of sorted rows: one entry per date, row numbers from startIndex on. */
  function Build(rows: seq<Row>, startIndex: int): seq<Entry>
    decreases |rows|
  {
    if rows == [] then []
    else
      var k := BlockLen(rows);
      [Entry(rows[0].date, startIndex, startIndex + k)] + Build(rows[k..], startIndex + k)
  }

  /** Entries have increasing dates, and their blocks are non-empty, contiguous and cover exactly
      the rows numbered from base on, each row under its own date. */
  ghost predicate WellIndexed(rows: seq<Row>, index: seq<Entry>, base: int) {
    && (forall a, b :: 0 <= a < b < |index| ==> index[a].date < index[b].date)
    && (forall a :: 0 <= a < |index| ==> index[a].start < index[a].end)
    && (forall a :: 0 <= a < |index| - 1 ==> index[a].end == index[a + 1].start)
    && (if index == [] then rows == [] else index[0].start == base && index[|index| - 1].end == base + |rows|)
    && (forall a, j :: 0 <= a < |index| && 0 <= j < |rows| && index[a].start <= base + j < index[a].end ==>
          rows[j].date == index[a].date)
  }

  lemma {:induction false} EntryBounds(rows: seq<Row>, index: seq<Entry>, base: int, a: nat, b: nat)
    requires WellIndexed(rows, index, base) && a <= b < |index|
    ensures base <= index[a].start && index[a].end <= index[b].end <= base + |rows|
    ensures index[a].start <= index[b].start
    decreases |index| - a
  {
    if a < b {
      EntryBounds(rows, index, base, a + 1, b);
      if a > 0 {
        StartBound(rows, index, base, a);
      }
    } else {
      StartBound(rows, index, base, a);
      EndBound(rows, index, base, a);
    }
  }

  lemma {:induction false} StartBound(rows: seq<Row>, index: seq<Entry>, base: int, a: nat)
    requires WellIndexed(rows, index, base) && a < |index|
    ensures base <= index[a].start
  {
    if a > 0 {
      StartBound(rows, index, base, a - 1);
      assert index[a - 1].end == index[a - 1 + 1].start;
    }
  }

  lemma {:induction false} EndBound(rows: seq<Row>, index: seq<Entry>, base: int, a: nat)
    requires WellIndexed(rows, index, base) && a < |index|
    ensures index[a].end <= base + |rows|
    decreases |index| - a
  {
    if a < |index| - 1 {
      EndBound(rows, index, base, a + 1);
    }
  }

  /** Every row lies in the block of exactly one entry. */
  lemma {:induction false} RowHasEntry(rows: seq<Row>, index: seq<Entry>, base: int, j: nat, hi: nat) returns (a: nat)
    requires WellIndexed(rows, index, base) && j < |rows| && hi < |index| && base + j < index[hi].end
    ensures a <= hi && index[a].start <= base + j < index[a].end && rows[j].date == index[a].date
  {
    if index[hi].start <= base + j {
      a := hi;
    } else {
      if hi > 0 {
        assert index[hi - 1].end == index[hi - 1 + 1].start;
      }
      a := RowHasEntry(rows, index, base, j, hi - 1);
    }
  }

  /** Removing the first block leaves a well-indexed rest. */
  lemma {:induction false} WellIndexedRest(rows: seq<Row>, index: seq<Entry>, base: int)
    requires WellIndexed(rows, index, base) && index != []
    ensures var k := index[0].end - base; 1 <= k <= |rows| && WellIndexed(rows[k..], index[1..], base + k)
  {
    EndBound(rows, index, base, 0);
    var k := index[0].end - base;
    var rest := index[1..];
    assert forall a :: 0 <= a < |rest| ==> rest[a] == index[a + 1];
    forall a, j | 0 <= a < |rest| && 0 <= j < |rows[k..]| && rest[a].start <= base + k + j < rest[a].end
      ensures rows[k..][j].date == rest[a].date
    {
      assert rows[k..][j] == rows[k + j];
      assert index[a + 1].start <= base + (k + j) < index[a + 1].end;
    }
    if rest == [] {
      assert k == |rows|;
    } else {
      assert index[0].end == index[0 + 1].start;
    }
  }

  lemma {:induction false} WellIndexedBlock(rows: seq<Row>, index: seq<Entry>, base: int)
    requires WellIndexed(rows, index, base) && rows != []
    ensures index != [] && index[0].start == base && index[0].date == rows[0].date
    ensures index[0].end - base == BlockLen(rows)
  {
    EndBound(rows, index, base, 0);
    var k := index[0].end - base;
    assert forall j :: 0 <= j < k ==> rows[j].date == index[0].date;
    if k < |rows| {
      WellIndexedRest(rows, index, base);
      assert index[1..] != [] && index[1..][0] == index[1];
      assert rows[k] == rows[k..][0];
      assert rows[k].date == index[1].date;
    }
    BlockLenIs(rows, k);
  }

  lemma {:induction false} BlockLenIs(rows: seq<Row>, k: nat)
    requires 1 <= k <= |rows| && forall j :: 0 <= j < k ==> rows[j].date == rows[0].date
    requires k < |rows| ==> rows[k].date != rows[0].date
    ensures BlockLen(rows) == k
  {
  }

  /** An index that fits the rows is the one that would be built from them. */
  lemma {:induction false} WellIndexedIsBuilt(rows: seq<Row>, index: seq<Entry>, base: int)
    requires WellIndexed(rows, index, base)
    ensures index == Build(rows, base)
    decreases |rows|
  {
    hide WellIndexed, Build, BlockLen;
    EmptyBuild(base);
    if rows != [] {
      BuildStep(rows, base);
      WellIndexedBlock(rows, index, base);
      WellIndexedRest(rows, index, base);
      WellIndexedIsBuilt(rows[BlockLen(rows)..], index[1..], base + BlockLen(rows));
      assert index == [index[0]] + index[1..];
    } else {
      NoRowsNoEntries(index, base);
    }
  }

  lemma {:induction false} NoRowsNoEntries(index: seq<Entry>, base: int)
    ensures WellIndexed([], index, base) <==> index == []
  {
    if index != [] && WellIndexed([], index, base) {
      EndBound([], index, base, 0);
    }
  }

  lemma {:induction false} AddBlock(rows: seq<Row>, index: seq<Entry>, base: int, k: nat)
    requires 1 <= k <= |rows| && SortedRows(rows)
    requires forall j :: 0 <= j < k ==> rows[j].date == rows[0].date
    requires WellIndexed(rows[k..], index, base + k)
    requires forall a :: 0 <= a < |index| ==> rows[0].date < index[a].date
    ensures WellIndexed(rows, [Entry(rows[0].date, base, base + k)] + index, base)
  {
    var all := [Entry(rows[0].date, base, base + k)] + index;
    forall a, j | 0 <= a < |all| && 0 <= j < |rows| && all[a].start <= base + j < all[a].end
      ensures rows[j].date == all[a].date
    {
      if a > 0 {
        StartBound(rows[k..], index, base + k, a - 1);
        assert rows[j] == rows[k..][j - k];
        assert index[a - 1].start <= base + k + (j - k) < index[a - 1].end;
      }
    }
  }

  lemma {:induction false} SortedSuffix(rows: seq<Row>, k: nat)
    requires SortedRows(rows) && k <= |rows|
    ensures SortedRows(rows[k..])
  {
  }

  /** In sorted rows everything after the first block is of a later date. */
  lemma {:induction false} LaterBlocks(rows: seq<Row>)
    requires SortedRows(rows) && rows != []
    ensures var rest := rows[BlockLen(rows)..];
            && SortedRows(rest)
            && forall j :: 0 <= j < |rest| ==> rows[0].date < rest[j].date
  {
    var k := BlockLen(rows);
    SortedSuffix(rows, k);
    if k < |rows| {
      assert rows[0].date < rows[k].date;
      assert forall j :: k < j < |rows| ==> rows[k].date <= rows[j].date;
    }
  }

  /** The built index of sorted rows fits them. */
  lemma {:induction false} BuiltIsWellIndexed(rows: seq<Row>, base: int)
    requires SortedRows(rows)
    ensures WellIndexed(rows, Build(rows, base), base)
    decreases |rows|
  {
    hide WellIndexed, SortedRows, Build, BlockLen;
    if rows == [] {
      EmptyBuild(base);
      NoRowsNoEntries([], base);
    } else {
      BuildStep(rows, base);
      var k := BlockLen(rows);
      LaterBlocks(rows);
      BuiltIsWellIndexed(rows[k..], base + k);
      var rest := Build(rows[k..], base + k);
      forall a | 0 <= a < |rest|
        ensures rows[0].date < rest[a].date
      {
        EntryDateIsARow(rows[k..], rest, base + k, a);
      }
      AddBlock(rows, rest, base, k);
    }
  }

  lemma {:induction false} EntryDateIsARow(rows: seq<Row>, index: seq<Entry>, base: int, a: nat)
    requires WellIndexed(rows, index, base) && a < |index|
    ensures exists j :: 0 <= j < |rows| && rows[j].date == index[a].date
  {
    StartBound(rows, index, base, a);
    EndBound(rows, index, base, a);
    var j := index[a].start - base;
    assert index[a].start <= base + j < index[a].end;
    assert rows[j].date == index[a].date;
  }

  // ----- reading -----

  function EntryDates(index: seq<Entry>): (d: seq<int>)
    ensures |d| == |index| && forall a :: 0 <= a < |index| ==> d[a] == index[a].date
  {
    seq(|index|, a requires 0 <= a < |index| => index[a].date)
  }

  /** Row numbers for a closed date range. */
  function IndexBounds(index: seq<Entry>, start: int, end: int): (int, int)
    requires Sorted(EntryDates(index))
  {
    var lo, hi := BisectLeft(EntryDates(index), start), BisectRight(EntryDates(index), end);
    if lo >= hi then (0, 0) else (index[lo].start, index[hi - 1].end)
  }

  function RowsIn(rows: seq<Row>, start: int, end: int): seq<Row> {
    if rows == [] then []
    else (if start <= rows[0].date <= end then [rows[0]] else []) + RowsIn(rows[1..], start, end)
  }

  lemma {:induction false} RowsInSlice(rows: seq<Row>, start: int, end: int, p: nat, q: nat)
    requires p <= q <= |rows|
    requires forall j :: 0 <= j < |rows| ==> (p <= j < q <==> start <= rows[j].date <= end)
    ensures RowsIn(rows, start, end) == rows[p..q]
  {
    if rows != [] {
      assert forall j :: 0 <= j < |rows[1..]| ==> rows[1..][j] == rows[j + 1];
      if p == 0 && q > 0 {
        RowsInSlice(rows[1..], start, end, 0, q - 1);
        assert rows[0..q] == [rows[0]] + rows[1..][0..q - 1];
      } else if p > 0 {
        RowsInSlice(rows[1..], start, end, p - 1, q - 1);
        assert rows[p..q] == rows[1..][p - 1..q - 1];
      } else {
        RowsInSlice(rows[1..], start, end, 0, 0);
      }
    }
  }

  /** The rows between the bounds are exactly the rows of the date range. */
  lemma {:induction false} BoundsExact(rows: seq<Row>, index: seq<Entry>, start: int, end: int)
    requires WellIndexed(rows, index, 0)
    ensures Sorted(EntryDates(index))
    ensures var (p, q) := IndexBounds(index, start, end);
            0 <= p <= q <= |rows| && rows[p..q] == RowsIn(rows, start, end)
  {
    var (p, q) := IndexBounds(index, start, end);
    var lo, hi := BisectLeft(EntryDates(index), start), BisectRight(EntryDates(index), end);
    if lo < hi {
      EntryBounds(rows, index, 0, lo, hi - 1);
    }
    forall j: nat | j < |rows|
      ensures p <= j < q <==> start <= rows[j].date <= end
    {
      var a := RowHasEntry(rows, index, 0, j, |index| - 1);
      assert start <= EntryDates(index)[a] <==> lo <= a;
      assert EntryDates(index)[a] <= end <==> a < hi;
      if lo < hi {
        if lo <= a < hi {
          EntryBounds(rows, index, 0, lo, a);
          EntryBounds(rows, index, 0, a, hi - 1);
        } else if a < lo {
          BlocksOrdered(rows, index, 0, a, lo);
        } else {
          BlocksOrdered(rows, index, 0, hi - 1, a);
        }
      }
    }
    RowsInSlice(rows, start, end, p, q);
  }

  lemma {:induction false} BlocksOrdered(rows: seq<Row>, index: seq<Entry>, base: int, a: nat, b: nat)
    requires WellIndexed(rows, index, base) && a < b < |index|
    ensures index[a].end <= index[b].start
    decreases b - a
  {
    assert index[a].end == index[a + 1].start;
    if a + 1 < b {
      BlocksOrdered(rows, index, base, a + 1, b);
    }
  }

  // ----- building and updating -----

  /** Rows of dates before, and from, a given date. */
  function Before(rows: seq<Row>, date: int): seq<Row> {
    if rows == [] || rows[0].date >= date then [] else [rows[0]] + Before(rows[1..], date)
  }

  function From(rows: seq<Row>, date: int): seq<Row> {
    if rows == [] || rows[0].date >= date then rows else From(rows[1..], date)
  }

  predicate AllFrom(rows: seq<Row>, date: int) {
    forall j :: 0 <= j < |rows| ==> rows[j].date >= date
  }

  predicate AllBefore(rows: seq<Row>, date: int) {
    forall j :: 0 <= j < |rows| ==> rows[j].date < date
  }

  lemma {:induction false} SortedFrom(rows: seq<Row>, date: int)
    requires SortedRows(rows) && rows != [] && rows[0].date >= date
    ensures AllFrom(rows, date)
  {
  }

  lemma {:induction false} SortedPrefix(rows: seq<Row>, k: nat)
    requires SortedRows(rows) && k <= |rows|
    ensures SortedRows(rows[..k])
  {
  }

  /** Cutting sorted rows at a date. */
  lemma {:induction false} BeforeFrom(rows: seq<Row>, date: int)
    requires SortedRows(rows)
    ensures var k := |Before(rows, date)|;
            k <= |rows| && Before(rows, date) == rows[..k] && From(rows, date) == rows[k..]
    ensures AllBefore(Before(rows, date), date) && AllFrom(From(rows, date), date)
  {
    hide SortedRows;
    if rows != [] {
      if rows[0].date < date {
        SortedSuffix(rows, 1);
        BeforeFrom(rows[1..], date);
      } else {
        SortedFrom(rows, date);
      }
    }
  }

  /** Cutting sorted rows in two at a date is unique. */
  lemma {:induction false} CutUnique(a: seq<Row>, b: seq<Row>, date: int)
    requires AllBefore(a, date) && AllFrom(b, date)
    ensures Before(a + b, date) == a && From(a + b, date) == b
  {
    if a == [] {
      assert a + b == b;
    } else {
      assert (a + b)[1..] == a[1..] + b;
      CutUnique(a[1..], b, date);
    }
  }

  /** The index of rows before a date followed by rows from it on is that of the two parts. */
  lemma {:induction false} BuildConcat(a: seq<Row>, b: seq<Row>, date: int, base: int)
    requires SortedRows(a) && AllBefore(a, date) && AllFrom(b, date)
    ensures Build(a + b, base) == Build(a, base) + Build(b, base + |a|)
    decreases |a|
  {
    hide SortedRows, Build, BlockLen, AllBefore, AllFrom;
    if a == [] {
      assert a + b == b;
      EmptyBuild(base);
    } else {
      var k := BlockLen(a);
      var rest := a[k..];
      BlockOfConcat(a, b, date);
      LaterBlocks(a);
      BuildConcat(rest, b, date, base + k);
      BuildStepTo(a + b, a[0].date, base, k, rest + b);
      BuildStepTo(a, a[0].date, base, k, rest);
      AppendAssoc([Entry(a[0].date, base, base + k)], Build(rest, base + k), Build(b, base + k + |rest|));
    }
  }

  lemma {:induction false} BuildStepTo(rows: seq<Row>, date: int, base: int, k: nat, rest: seq<Row>)
    requires rows != [] && rows[0].date == date && BlockLen(rows) == k && rows[k..] == rest
    ensures Build(rows, base) == [Entry(date, base, base + k)] + Build(rest, base + k)
  {
    hide Build, BlockLen;
    BuildStep(rows, base);
  }

  lemma {:induction false} BlockOfConcat(a: seq<Row>, b: seq<Row>, date: int)
    requires a != [] && AllBefore(a, date) && AllFrom(b, date)
    ensures BlockLen(a + b) == BlockLen(a) && a + b != [] && (a + b)[0].date == a[0].date
    ensures (a + b)[BlockLen(a)..] == a[BlockLen(a)..] + b
    ensures AllBefore(a[BlockLen(a)..], date)
  {
    BlockLenIs(a + b, BlockLen(a));
  }

  lemma {:induction false} EmptyBuild(base: int)
    ensures Build([], base) == []
  {
  }

  lemma {:induction false} BuildStep(rows: seq<Row>, base: int)
    requires rows != []
    ensures var k := BlockLen(rows);
            Build(rows, base) == [Entry(rows[0].date, base, base + k)] + Build(rows[k..], base + k)
  {
  }

  lemma {:induction false} ConsEqual<T>(x: T, xs: seq<T>, y: T, ys: seq<T>)
    ensures [x] + xs == [y] + ys <==> x == y && xs == ys
  {
    if [x] + xs == [y] + ys {
      assert ([x] + xs)[0] == ([y] + ys)[0];
      assert ([x] + xs)[1..] == xs && ([y] + ys)[1..] == ys;
    }
  }

  /** The number of rows of a date. */
  function CountOn(rows: seq<Row>, date: int): nat {
    if rows == [] then 0 else (if rows[0].date == date then 1 else 0) + CountOn(rows[1..], date)
  }

  lemma {:induction false} CountOnSplit(rows: seq<Row>, k: nat, date: int)
    requires k <= |rows|
    ensures CountOn(rows, date) == CountOn(rows[..k], date) + CountOn(rows[k..], date)
  {
    if k == 0 {
      assert rows[0..] == rows;
    } else {
      CountOnSplit(rows[1..], k - 1, date);
      assert rows[1..][..k - 1] == rows[..k][1..];
      assert rows[1..][k - 1..] == rows[k..];
    }
  }

  lemma {:induction false} CountOnUniform(rows: seq<Row>, d: int, date: int)
    requires forall j :: 0 <= j < |rows| ==> rows[j].date == d
    ensures CountOn(rows, date) == if d == date then |rows| else 0
  {
    if rows != [] {
      CountOnUniform(rows[1..], d, date);
    }
  }

  lemma {:induction false} CountOnAbsent(rows: seq<Row>, date: int)
    requires forall j :: 0 <= j < |rows| ==> rows[j].date != date
    ensures CountOn(rows, date) == 0
  {
    if rows != [] {
      CountOnAbsent(rows[1..], date);
    }
  }

  lemma {:induction false} CountOnBlock(rows: seq<Row>, date: int)
    requires rows != [] && SortedRows(rows)
    ensures CountOn(rows, date) ==
            if date == rows[0].date then BlockLen(rows) else CountOn(rows[BlockLen(rows)..], date)
  {
    hide SortedRows;
    var k := BlockLen(rows);
    LaterBlocks(rows);
    CountOnSplit(rows, k, date);
    CountOnUniform(rows[..k], rows[0].date, date);
    if date == rows[0].date {
      CountOnAbsent(rows[k..], date);
    }
  }

  ghost predicate SameCounts(a: seq<Row>, b: seq<Row>) {
    forall d :: CountOn(a, d) == CountOn(b, d)
  }

  /** Two sorted row lists have the same block structure exactly when they have the same number of
      rows on every date. */
  lemma {:induction false} SameIndexIsSameCounts(a: seq<Row>, b: seq<Row>, base: int)
    requires SortedRows(a) && SortedRows(b)
    ensures Build(a, base) == Build(b, base) <==> SameCounts(a, b)
    decreases |a|
  {
    hide SortedRows;
    if a == [] || b == [] {
      if b != [] {
        CountOnBlock(b, b[0].date);
        assert CountOn(b, b[0].date) != CountOn(a, b[0].date);
      } else if a != [] {
        CountOnBlock(a, a[0].date);
        assert CountOn(a, a[0].date) != CountOn(b, a[0].date);
      }
    } else {
      SameFirstBlock(a, b, base);
    }
  }

  lemma {:induction false} SameFirstBlock(a: seq<Row>, b: seq<Row>, base: int)
    requires SortedRows(a) && SortedRows(b) && a != [] && b != []
    ensures Build(a, base) == Build(b, base) <==> SameCounts(a, b)
    decreases |a|, 0
  {
    hide SortedRows, CountOn, Build, BlockLen;
    var k, m := BlockLen(a), BlockLen(b);
    LaterBlocks(a);
    LaterBlocks(b);
    BuildStep(a, base);
    BuildStep(b, base);
    ConsEqual(Entry(a[0].date, base, base + k), Build(a[k..], base + k),
              Entry(b[0].date, base, base + m), Build(b[m..], base + m));
    if a[0].date == b[0].date && k == m {
      SameIndexIsSameCounts(a[k..], b[m..], base + k);
      CountOnAbsent(a[k..], a[0].date);
      CountOnAbsent(b[m..], a[0].date);
      if SameCounts(a, b) {
        forall d
          ensures CountOn(a[k..], d) == CountOn(b[m..], d)
        {
          CountOnBlock(a, d);
          CountOnBlock(b, d);
        }
      }
      if SameCounts(a[k..], b[m..]) {
        forall d
          ensures CountOn(a, d) == CountOn(b, d)
        {
          CountOnBlock(a, d);
          CountOnBlock(b, d);
        }
      }
    } else {
      var d := if a[0].date <= b[0].date then a[0].date else b[0].date;
      CountOnBlock(a, d);
      CountOnBlock(b, d);
      if a[0].date < b[0].date {
        CountOnAbsent(b[m..], d);
      } else if b[0].date < a[0].date {
        CountOnAbsent(a[k..], d);
      }
      assert CountOn(a, d) != CountOn(b, d);
    }
  }

  /** The number of rows indexed under dates from a given date on. */
  function LinesFrom(index: seq<Entry>, date: int): int {
    if index == [] then 0
    else (if index[0].date >= date then index[0].end - index[0].start else 0) + LinesFrom(index[1..], date)
  }

  lemma {:induction false} FromSkipsBlock(rows: seq<Row>, date: int)
    requires SortedRows(rows) && rows != []
    ensures |From(rows, date)| ==
            (if rows[0].date >= date then BlockLen(rows) else 0) + |From(rows[BlockLen(rows)..], date)|
  {
    hide SortedRows, BlockLen;
    var k := BlockLen(rows);
    LaterBlocks(rows);
    if rows[0].date < date {
      BeforeFrom(rows[k..], date);
      var head := rows[..k] + Before(rows[k..], date);
      assert head + From(rows[k..], date) == rows;
      BlockDates(rows);
      CutUnique(head, From(rows[k..], date), date);
    }
  }

  lemma {:induction false} BlockDates(rows: seq<Row>)
    requires rows != []
    ensures BlockLen(rows) <= |rows| && forall j :: 0 <= j < BlockLen(rows) ==> rows[j].date == rows[0].date
  {
  }

  lemma {:induction false} LinesFromBuilt(rows: seq<Row>, base: int, date: int)
    requires SortedRows(rows)
    ensures LinesFrom(Build(rows, base), date) == |From(rows, date)|
    decreases |rows|
  {
    hide SortedRows, BlockLen, Build;
    EmptyBuild(base);
    if rows != [] {
      var k := BlockLen(rows);
      BuildStep(rows, base);
      BlockDates(rows);
      LaterBlocks(rows);
      LinesFromBuilt(rows[k..], base + k, date);
      FromSkipsBlock(rows, date);
      assert Build(rows, base)[1..] == Build(rows[k..], base + k);
    }
  }

  /** The data file and the index after an update: rows from cutDate on are replaced by the
      recomputed data, but only dates from newDate on get new index entries. */
  function Updated(rows: seq<Row>, index: seq<Entry>, data: seq<Row>, cutDate: int, newDate: int)
    : (r: (seq<Row>, seq<Entry>))
    requires 0 <= LinesFrom(index, cutDate) <= |rows|
  {
    (rows[..|rows| - LinesFrom(index, cutDate)] + data,
     index + Build(From(data, newDate), if index == [] then 0 else index[|index| - 1].end))
  }

  lemma {:induction false} BuildEnd(rows: seq<Row>, base: int)
    requires SortedRows(rows)
    ensures rows == [] <==> Build(rows, base) == []
    ensures rows != [] ==> Build(rows, base)[|Build(rows, base)| - 1].end == base + |rows|
  {
    BuiltIsWellIndexed(rows, base);
  }

  lemma {:induction false} BuildDates(rows: seq<Row>, base: int, date: int)
    requires SortedRows(rows)
    ensures AllBefore(rows, date) ==> forall a :: 0 <= a < |Build(rows, base)| ==> Build(rows, base)[a].date < date
    ensures AllFrom(rows, date) ==> forall a :: 0 <= a < |Build(rows, base)| ==> Build(rows, base)[a].date >= date
  {
    hide WellIndexed, Build, SortedRows;
    BuiltIsWellIndexed(rows, base);
    forall a | 0 <= a < |Build(rows, base)|
      ensures AllBefore(rows, date) ==> Build(rows, base)[a].date < date
      ensures AllFrom(rows, date) ==> Build(rows, base)[a].date >= date
    {
      EntryDateIsARow(rows, Build(rows, base), base, a);
    }
  }

  /** Two lists that split at the same date into equal wholes have equal parts. */
  lemma {:induction false} SplitEqual(a: seq<Entry>, b: seq<Entry>, c: seq<Entry>, d: seq<Entry>, date: int)
    requires forall i :: 0 <= i < |a| ==> a[i].date < date
    requires forall i :: 0 <= i < |c| ==> c[i].date < date
    requires forall i :: 0 <= i < |b| ==> b[i].date >= date
    requires forall i :: 0 <= i < |d| ==> d[i].date >= date
    requires a + b == c + d
    ensures a == c
  {
    EntriesCutUnique(a, b, date);
    EntriesCutUnique(c, d, date);
  }

  function EntriesBefore(index: seq<Entry>, date: int): seq<Entry> {
    if index == [] || index[0].date >= date then [] else [index[0]] + EntriesBefore(index[1..], date)
  }

  lemma {:induction false} EntriesCutUnique(a: seq<Entry>, b: seq<Entry>, date: int)
    requires forall i :: 0 <= i < |a| ==> a[i].date < date
    requires forall i :: 0 <= i < |b| ==> b[i].date >= date
    ensures EntriesBefore(a + b, date) == a
  {
    if a == [] {
      assert a + b == b;
    } else {
      assert (a + b)[1..] == a[1..] + b;
      EntriesCutUnique(a[1..], b, date);
    }
  }

  lemma {:induction false} SortedConcat(a: seq<Row>, b: seq<Row>, date: int)
    requires SortedRows(a) && SortedRows(b) && AllBefore(a, date) && AllFrom(b, date)
    ensures SortedRows(a + b)
  {
  }

  /** The patched index is the index of the patched file exactly when the index part kept for the
      recomputed dates is what would be built for their new rows. */
  lemma {:induction false} PatchedIndex(
    kept: seq<Row>, tail: seq<Row>, recomputed: seq<Row>, added: seq<Row>, cutDate: int, newDate: int)
    requires SortedRows(kept) && SortedRows(tail) && SortedRows(recomputed) && SortedRows(added)
    requires AllBefore(kept, cutDate) && AllFrom(tail, cutDate) && AllBefore(tail, newDate)
    requires AllFrom(recomputed, cutDate) && AllBefore(recomputed, newDate) && AllFrom(added, newDate)
    requires cutDate <= newDate
    ensures Build(kept, 0) + Build(tail, |kept|) + Build(added, |kept| + |tail|) == Build(kept + recomputed + added, 0)
            <==> SameCounts(tail, recomputed)
  {
    hide SortedRows, Build, SameCounts, AllBefore, AllFrom;
    var k := |kept|;
    AllBeforeLater(kept, cutDate, newDate);
    AllConcat(kept, recomputed, newDate);
    SortedConcat(kept, recomputed, cutDate);
    BuildConcat(kept + recomputed, added, newDate, 0);
    BuildConcat(kept, recomputed, cutDate, 0);
    SameIndexIsSameCounts(tail, recomputed, k);
    var head, oldTail, oldAdd := Build(kept, 0), Build(tail, k), Build(added, k + |tail|);
    var newTail, newAdd := Build(recomputed, k), Build(added, k + |recomputed|);
    AppendAssoc(head, oldTail, oldAdd);
    AppendAssoc(head, newTail, newAdd);
    PrefixCancels(head, oldTail + oldAdd, newTail + newAdd);
    if oldTail == newTail {
      BuildEnd(tail, k);
      BuildEnd(recomputed, k);
    } else if oldTail + oldAdd == newTail + newAdd {
      BuildDates(tail, k, newDate);
      BuildDates(recomputed, k, newDate);
      BuildDates(added, k + |tail|, newDate);
      BuildDates(added, k + |recomputed|, newDate);
      SplitEqual(oldTail, oldAdd, newTail, newAdd, newDate);
    }
  }

  lemma {:induction false} AllBeforeLater(rows: seq<Row>, date: int, later: int)
    requires AllBefore(rows, date) && date <= later
    ensures AllBefore(rows, later)
  {
  }

  lemma {:induction false} AllConcat(a: seq<Row>, b: seq<Row>, date: int)
    requires AllBefore(a, date) && AllBefore(b, date)
    ensures AllBefore(a + b, date)
  {
  }

  /** After an update the index fits the data file exactly when every recomputed date kept its
      number of rows. */
  lemma {:induction false} UpdateIndexExact(
    rows: seq<Row>, index: seq<Entry>, data: seq<Row>, cutDate: int, newDate: int)
    requires WellIndexed(rows, index, 0) && SortedRows(rows) && SortedRows(data)
    requires AllBefore(rows, newDate) && AllFrom(data, cutDate) && cutDate <= newDate
    ensures 0 <= LinesFrom(index, cutDate) <= |rows|
    ensures var (rows', index') := Updated(rows, index, data, cutDate, newDate);
            WellIndexed(rows', index', 0) <==> SameCounts(From(rows, cutDate), Before(data, newDate))
  {
    hide SortedRows, Build, SameCounts, AllBefore, AllFrom, WellIndexed;
    WellIndexedIsBuilt(rows, index, 0);
    LinesFromBuilt(rows, 0, cutDate);
    BeforeFrom(rows, cutDate);
    BeforeFrom(data, newDate);
    var kept, tail := Before(rows, cutDate), From(rows, cutDate);
    var recomputed, added := Before(data, newDate), From(data, newDate);
    PartsOfSorted(rows, cutDate, newDate);
    PartsOfSorted(data, newDate, cutDate);
    BuildEnd(rows, 0);
    BuildConcat(kept, tail, cutDate, 0);
    assert rows == kept + tail && data == recomputed + added;
    PatchedIndex(kept, tail, recomputed, added, cutDate, newDate);
    AppendAssoc(kept, recomputed, added);
    var (rows', index') := Updated(rows, index, data, cutDate, newDate);
    assert rows' == kept + recomputed + added;
    SortedConcat(kept, data, cutDate);
    BuiltIsWellIndexed(rows', 0);
    if WellIndexed(rows', index', 0) {
      WellIndexedIsBuilt(rows', index', 0);
    }
  }

  /** What an update does to the files: the rows before the cut stay, those from it on are the recomputed ones;
      the index keeps its entries, and the new ones are an index of the rows from the new date on. */
  lemma {:induction false} UpdatedFiles(
    rows: seq<Row>, index: seq<Entry>, data: seq<Row>, cutDate: int, newDate: int)
    requires WellIndexed(rows, index, 0) && SortedRows(rows) && SortedRows(data) && AllFrom(data, cutDate)
    ensures 0 <= LinesFrom(index, cutDate) <= |rows|
    ensures var (rows', index') := Updated(rows, index, data, cutDate, newDate);
            && rows' == Before(rows, cutDate) + data
            && Before(rows', cutDate) == Before(rows, cutDate) && From(rows', cutDate) == data
            && index <= index' && WellIndexed(From(data, newDate), index'[|index|..], |rows|)
  {
    hide SortedRows, Build, AllBefore, AllFrom, WellIndexed;
    WellIndexedIsBuilt(rows, index, 0);
    LinesFromBuilt(rows, 0, cutDate);
    BeforeFrom(rows, cutDate);
    CutUnique(Before(rows, cutDate), data, cutDate);
    PartsOfSorted(data, newDate, cutDate);
    BuildEnd(rows, 0);
    BuiltIsWellIndexed(From(data, newDate), |rows|);
  }

  /** The two parts of sorted rows are sorted and keep bounds of the whole. */
  lemma {:induction false} PartsOfSorted(rows: seq<Row>, date: int, other: int)
    requires SortedRows(rows)
    ensures SortedRows(Before(rows, date)) && SortedRows(From(rows, date))
    ensures AllBefore(rows, other) ==> AllBefore(From(rows, date), other)
    ensures AllFrom(rows, other) ==> AllFrom(Before(rows, date), other)
  {
    BeforeFrom(rows, date);
    SortedPrefix(rows, |Before(rows, date)|);
    SortedSuffix(rows, |Before(rows, date)|);
  }

  // ----- the cache files -----

  /** The files of one dataset cache; `rghtEtd` is the largest right window of its fields, and
      `dictInstruments` tells whether its instruments are given with their own time spans. */
  class DiskDatasetCache {
    const rghtEtd: nat
    const dictInstruments: bool
    var present: bool
    var rows: seq<Row>
    var index: seq<Entry>
    var lastUpdate: int

    constructor (rghtEtd: nat, dictInstruments: bool)
      ensures this.rghtEtd == rghtEtd && this.dictInstruments == dictInstruments && !present
    {
      this.rghtEtd, this.dictInstruments := rghtEtd, dictInstruments;
      present, rows, index, lastUpdate := false, [], [], 0;
    }

    /** The files agree: the index fits the data file. */
    ghost predicate Agree()
      reads `rows, `index
    {
      SortedRows(rows) && WellIndexed(rows, index, 0)
    }

    /** Write both files from sorted features; nothing is written for an empty dataset. */
    method GenDatasetCache(features: seq<Row>, lastPoint: int)
      requires SortedRows(features)
      modifies `present, `rows, `index, `lastUpdate
      ensures present == (features != [])
      ensures present ==> Agree() && rows == features && lastUpdate == lastPoint
    {
      present := false;
      if features != [] {
        BuiltIsWellIndexed(features, 0);
        present, rows, index, lastUpdate := true, features, Build(features, 0), lastPoint;
      }
    }

    /** Read the rows of a date range through the index. */
    method ReadDataFromCache(start: int, end: int) returns (result: seq<Row>)
      requires Agree()
      ensures result == RowsIn(rows, start, end)
    {
      BoundsExact(rows, index, start, end);
      var (p, q) := IndexBounds(index, start, end);
      result := rows[p..q];
    }

    /** Replace the last lines of the data file, and append the index of the rows of new dates. */
    method PatchFiles(data: seq<Row>, rmLines: int, cutDate: int, newDate: int)
      requires Agree() && SortedRows(data) && AllFrom(data, cutDate) && AllBefore(rows, newDate) && cutDate <= newDate
      requires rmLines == LinesFrom(index, cutDate)
      modifies `rows, `index
      ensures 0 <= LinesFrom(old(index), cutDate) <= |old(rows)|
      ensures (rows, index) == Updated(old(rows), old(index), data, cutDate, newDate)
      ensures rows == Before(old(rows), cutDate) + data
      ensures Before(rows, cutDate) == Before(old(rows), cutDate) && From(rows, cutDate) == data
      ensures old(index) <= index && WellIndexed(From(data, newDate), index[|old(index)|..], |old(rows)|)
      ensures WellIndexed(rows, index, 0) <==> SameCounts(From(old(rows), cutDate), Before(data, newDate))
    {
      hide WellIndexed, SortedRows, AllFrom, AllBefore, SameCounts, Before, From, LinesFrom, Build;
      UpdateIndexExact(rows, index, data, cutDate, newDate);
      UpdatedFiles(rows, index, data, cutDate, newDate);
      rows := rows[..|rows| - rmLines] + data;
      index := index + Build(From(data, newDate), if index == [] then 0 else index[|index| - 1].end);
    }

    /** Bring both files up to the newest calendar, given the provider's dataset for a date range.
        Returns 0 (updated, or nothing to add), 1 (no need, or instruments that are not updated) or
        2 (missing). */
    method Update(cal: seq<int>, dataset: (int, int) -> seq<Row>, ghost rowsAt: Provider) returns (code: nat)
      requires StrictlySorted(cal) && cal != []
      requires forall a, b :: SortedRows(dataset(a, b)) && AllFrom(dataset(a, b), a)
      requires present ==>
                 && Agree() && lastUpdate in cal
                 && AllBefore(rows, lastUpdate + 1) && |index| <= IndexOf(cal, lastUpdate) + 1
      modifies `rows, `index, `lastUpdate
      ensures code == 2 <==> !present
      ensures code == 1 <==> present && (dictInstruments || old(lastUpdate) == cal[|cal| - 1])
      ensures code == 0 ==>
                var c := IndexOf(cal, old(lastUpdate)) + 1;
                var cut := c - MinInt(rghtEtd, |old(index)|);
                && 0 <= cut <= c < |cal|
                && var data := dataset(cal[cut], cal[|cal| - 1]);
                   if data == [] then rows == old(rows) && index == old(index) && lastUpdate == old(lastUpdate)
                   else && 0 <= LinesFrom(old(index), cal[cut]) <= |old(rows)|
                        && (rows, index) == Updated(old(rows), old(index), data, cal[cut], cal[c])
                        && Before(rows, cal[cut]) == Before(old(rows), cal[cut]) && From(rows, cal[cut]) == data
                        && old(index) <= index
                        && WellIndexed(From(data, cal[c]), index[|old(index)|..], |old(rows)|)
                        && lastUpdate == cal[|cal| - 1]
                        && (WellIndexed(rows, index, 0) <==>
                              SameCounts(From(old(rows), cal[cut]), Before(data, cal[c])))
      // with rows given by a provider, the file is the regenerated one exactly when no kept row has changed
      // and no stored row is kept for want of recomputed ones
      ensures code == 0 && Gives(dataset, rowsAt, cal) ==>
                var c, n := IndexOf(cal, old(lastUpdate)) + 1, |cal|;
                var cut := c - MinInt(rghtEtd, |old(index)|);
                0 <= cut <= c < n && RegeneratedExactly(old(rows), rows, rowsAt, c, n, cut)
      ensures code != 0 ==> rows == old(rows) && index == old(index) && lastUpdate == old(lastUpdate)
    {
      hide WellIndexed, SortedRows, AllFrom, AllBefore, SameCounts, Calendar, StrictlySorted, Positions, Before, From,
        Gives, LinesFrom, Build, Updated, RegeneratedExactly;
      if !present {
        return 2;
      }
      if dictInstruments {
        return 1;
      }
      ghost var last := IndexOf(cal, lastUpdate);
      NewCalendar(cal, last);
      var newCalendar := Calendar(cal, Some(lastUpdate), None);
      if |newCalendar| <= 1 {
        return 1;
      }
      var currentIndex := |cal| - |newCalendar| + 1;
      var rmNPeriod, rmLines := 0, 0;
      if index != [] {
        rmNPeriod := MinInt(rghtEtd, |index|);
        rmLines := LinesFrom(index, cal[currentIndex - rmNPeriod]);
      }
      var data := dataset(cal[currentIndex - rmNPeriod], newCalendar[|newCalendar| - 1]);
      if Gives(dataset, rowsAt, cal) {
        GivenUpdate(rows, dataset, rowsAt, cal, currentIndex, currentIndex - rmNPeriod);
      }
      if data == [] {
        return 0;
      }
      CalendarOrder(cal, last, currentIndex - rmNPeriod, rows);
      NoLines(cal[currentIndex - rmNPeriod]);
      PatchFiles(data, rmLines, cal[currentIndex - rmNPeriod], cal[currentIndex]);
      lastUpdate := newCalendar[|newCalendar| - 1];
      code := 0;
    }
  }

  lemma {:induction false} NoLines(date: int)
    ensures LinesFrom([], date) == 0
  {
  }

  /** If the file was the provider's, it is so again if and only if no kept row has changed and no stored row
      is kept for want of recomputed ones. */
  ghost predicate RegeneratedExactly(
    rows: seq<Row>, rows': seq<Row>, rowsAt: Provider, c: nat, n: nat, cut: nat)
  {
    rows == Positions(rowsAt, c, 0, c) ==>
      (rows' == Positions(rowsAt, n, 0, n) <==>
         && (forall p: nat :: p < cut ==> rowsAt(c, p) == rowsAt(n, p))
         && (Positions(rowsAt, n, cut, n) == [] ==> Positions(rowsAt, c, cut, c) == []))
  }

  lemma {:induction false} GivenUpdate(
    rows: seq<Row>, dataset: (int, int) -> seq<Row>, rowsAt: Provider, cal: seq<int>, c: nat, cut: nat)
    requires StrictlySorted(cal) && cal != [] && Gives(dataset, rowsAt, cal) && cut <= c < |cal|
    ensures var data := dataset(cal[cut], cal[|cal| - 1]);
            RegeneratedExactly(rows, if data == [] then rows else Before(rows, cal[cut]) + data, rowsAt, c, |cal|, cut)
  {
    hide Positions, Before;
    UpdateDataExact(rowsAt, cal, c, |cal|, cut);
  }

  lemma {:induction false} CalendarOrder(cal: seq<int>, last: nat, cut: nat, rows: seq<Row>)
    requires StrictlySorted(cal) && last + 1 < |cal| && cut <= last + 1 && AllBefore(rows, cal[last] + 1)
    ensures cal[cut] <= cal[last + 1] && AllBefore(rows, cal[last + 1])
  {
  }

  // ----- against regeneration -----

  /** The provider's rows for calendar position p when the calendar has n points. */
  type Provider = (nat, nat) -> seq<Row>

  ghost predicate Dated(rowsAt: Provider, cal: seq<int>) {
    forall n: nat, p: nat, j :: p < |cal| && 0 <= j < |rowsAt(n, p)| ==> rowsAt(n, p)[j].date == cal[p]
  }

  /** The dataset asked for from a calendar point on is the provider's rows from its position on. */
  ghost predicate Gives(dataset: (int, int) -> seq<Row>, rowsAt: Provider, cal: seq<int>)
    requires cal != []
  {
    Dated(rowsAt, cal) &&
    forall a: nat :: a < |cal| ==> dataset(cal[a], cal[|cal| - 1]) == Positions(rowsAt, |cal|, a, |cal|)
  }

  /** The rows of positions [a, b) on a calendar of n points. */
  function Positions(rowsAt: Provider, n: nat, a: nat, b: nat): seq<Row>
    decreases b - a
  {
    if a >= b then [] else Positions(rowsAt, n, a, b - 1) + rowsAt(n, b - 1)
  }

  lemma {:induction false} PositionsSplit(rowsAt: Provider, n: nat, a: nat, m: nat, b: nat)
    requires a <= m <= b
    ensures Positions(rowsAt, n, a, b) == Positions(rowsAt, n, a, m) + Positions(rowsAt, n, m, b)
    decreases b - m
  {
    if m < b {
      PositionsSplit(rowsAt, n, a, m, b - 1);
      AppendAssoc(Positions(rowsAt, n, a, m), Positions(rowsAt, n, m, b - 1), rowsAt(n, b - 1));
    } else {
      assert Positions(rowsAt, n, a, m) + [] == Positions(rowsAt, n, a, m);
    }
  }

  lemma {:induction false} PositionDates(rowsAt: Provider, cal: seq<int>, n: nat, a: nat, b: nat)
    requires StrictlySorted(cal) && Dated(rowsAt, cal) && a <= b <= |cal|
    ensures b < |cal| ==> AllBefore(Positions(rowsAt, n, a, b), cal[b])
    ensures a < |cal| ==> AllFrom(Positions(rowsAt, n, a, b), cal[a])
    decreases b - a
  {
    if a < b {
      PositionDates(rowsAt, cal, n, a, b - 1);
      assert b < |cal| ==> cal[b - 1] < cal[b];
      assert cal[a] <= cal[b - 1];
    }
  }

  lemma {:induction false} LastPosition(rowsAt: Provider, cal: seq<int>, n: nat, c: nat)
    requires StrictlySorted(cal) && Dated(rowsAt, cal) && 0 < c <= |cal|
    ensures Positions(rowsAt, n, 0, c) == Positions(rowsAt, n, 0, c - 1) + rowsAt(n, c - 1)
    ensures Before(Positions(rowsAt, n, 0, c), cal[c - 1]) == Positions(rowsAt, n, 0, c - 1)
    ensures From(Positions(rowsAt, n, 0, c), cal[c - 1]) == rowsAt(n, c - 1)
  {
    hide AllFrom, AllBefore, Before, From;
    PositionDates(rowsAt, cal, n, 0, c - 1);
    OnePosition(rowsAt, cal, n, c - 1);
    CutUnique(Positions(rowsAt, n, 0, c - 1), rowsAt(n, c - 1), cal[c - 1]);
  }

  /** Equal row lists over the same positions have equal rows at every position. */
  lemma {:induction false} SamePositions(rowsAt: Provider, cal: seq<int>, n: nat, n': nat, c: nat)
    requires StrictlySorted(cal) && Dated(rowsAt, cal) && c <= |cal|
    ensures Positions(rowsAt, n, 0, c) == Positions(rowsAt, n', 0, c) <==>
            forall p: nat :: p < c ==> rowsAt(n, p) == rowsAt(n', p)
    decreases c
  {
    if c > 0 {
      hide Dated, Before, From, Positions, StrictlySorted;
      SamePositions(rowsAt, cal, n, n', c - 1);
      LastPosition(rowsAt, cal, n, c);
      LastPosition(rowsAt, cal, n', c);
    }
  }

  lemma {:induction false} OnePosition(rowsAt: Provider, cal: seq<int>, n: nat, p: nat)
    requires Dated(rowsAt, cal) && p < |cal|
    ensures AllFrom(rowsAt(n, p), cal[p])
  {
  }

  /** The data file of n points after an update to n' points that recomputes the positions from cut on;
      it is left as it is when the provider has no rows for them. */
  function UpdatedRows(rowsAt: Provider, cal: seq<int>, n: nat, n': nat, cut: nat): seq<Row>
    requires cut < |cal|
  {
    var rows, data := Positions(rowsAt, n, 0, n), Positions(rowsAt, n', cut, n');
    if data == [] then rows else Before(rows, cal[cut]) + data
  }

  /** The updated data file equals the regenerated one exactly when no row before the recomputed
      positions has changed and, if there are no recomputed rows, none was stored at those positions. */
  lemma {:induction false} UpdateDataExact(rowsAt: Provider, cal: seq<int>, n: nat, n': nat, cut: nat)
    requires StrictlySorted(cal) && Dated(rowsAt, cal) && cut <= n <= n' == |cal| && cut < n'
    ensures UpdatedRows(rowsAt, cal, n, n', cut) == Positions(rowsAt, n', 0, n') <==>
            && (forall p: nat :: p < cut ==> rowsAt(n, p) == rowsAt(n', p))
            && (Positions(rowsAt, n', cut, n') == [] ==> Positions(rowsAt, n, cut, n) == [])
  {
    hide AllFrom, AllBefore, Before, From, Positions, Dated, StrictlySorted;
    var head, head' := Positions(rowsAt, n, 0, cut), Positions(rowsAt, n', 0, cut);
    var tail, data := Positions(rowsAt, n, cut, n), Positions(rowsAt, n', cut, n');
    PositionsSplit(rowsAt, n, 0, cut, n);
    PositionsSplit(rowsAt, n', 0, cut, n');
    CutAtPosition(rowsAt, cal, n, cut);
    SamePositions(rowsAt, cal, n, n', cut);
    if data == [] {
      SameSplit(rowsAt, cal, n, n', cut, tail);
    } else {
      SuffixCancels(head, head', data);
    }
  }

  lemma {:induction false} CutAtPosition(rowsAt: Provider, cal: seq<int>, n: nat, cut: nat)
    requires StrictlySorted(cal) && Dated(rowsAt, cal) && cut <= n <= |cal| && cut < |cal|
    ensures Before(Positions(rowsAt, n, 0, n), cal[cut]) == Positions(rowsAt, n, 0, cut)
  {
    hide AllFrom, AllBefore;
    PositionsSplit(rowsAt, n, 0, cut, n);
    PositionDates(rowsAt, cal, n, 0, cut);
    PositionDates(rowsAt, cal, n, cut, n);
    CutUnique(Positions(rowsAt, n, 0, cut), Positions(rowsAt, n, cut, n), cal[cut]);
  }

  /** Rows before a position followed by later ones are the rows before it alone exactly when both parts
      say so. */
  lemma {:induction false} SameSplit(rowsAt: Provider, cal: seq<int>, n: nat, n': nat, cut: nat, tail: seq<Row>)
    requires StrictlySorted(cal) && Dated(rowsAt, cal) && cut <= n <= |cal| && cut < |cal|
    requires tail == Positions(rowsAt, n, cut, n)
    ensures var head, head' := Positions(rowsAt, n, 0, cut), Positions(rowsAt, n', 0, cut);
            head + tail == head' + [] <==> head == head' && tail == []
  {
    hide AllFrom, AllBefore;
    var head, head' := Positions(rowsAt, n, 0, cut), Positions(rowsAt, n', 0, cut);
    PositionDates(rowsAt, cal, n, 0, cut);
    PositionDates(rowsAt, cal, n, cut, n);
    PositionDates(rowsAt, cal, n', 0, cut);
    CutUnique(head, tail, cal[cut]);
    CutUnique(head', [], cal[cut]);
    assert head' + [] == head' && head + [] == head;
  }

  /** Rows at a position may change with the calendar only within `right` positions of its end. */
  ghost predicate RightWindow(rowsAt: Provider, n: nat, n': nat, right: nat) {
    forall p: nat :: p + right < n ==> rowsAt(n, p) == rowsAt(n', p)
  }

  /** With rows that depend on at most `right` later periods and at least as many indexed dates, the
      update equals regeneration unless every recomputed row has vanished. */
  lemma {:induction false} UpdateEqualsRegeneration(
    rowsAt: Provider, cal: seq<int>, n: nat, n': nat, right: nat, indexed: nat)
    requires StrictlySorted(cal) && Dated(rowsAt, cal) && n < n' == |cal| && right <= indexed <= n
    requires RightWindow(rowsAt, n, n', right)
    ensures var cut := n - MinInt(right, indexed);
            UpdatedRows(rowsAt, cal, n, n', cut) == Positions(rowsAt, n', 0, n') <==>
            Positions(rowsAt, n', cut, n') != [] || Positions(rowsAt, n, cut, n) == []
  {
    hide UpdatedRows, Positions, Dated;
    UpdateDataExact(rowsAt, cal, n, n', n - right);
  }

  /** A dataset the cache can be asked to update: rows of a right window, with this many dates indexed,
      and some rows to recompute. */
  ghost predicate Updatable(rowsAt: Provider, cal: seq<int>, n: nat, n': nat, right: nat, indexed: nat)
    requires indexed <= n
  {
    && Dated(rowsAt, cal) && RightWindow(rowsAt, n, n', right)
    && |Build(Positions(rowsAt, n, 0, n), 0)| == indexed
    && Positions(rowsAt, n', n - MinInt(right, indexed), n') != []
  }

  /** An update is right for every dataset of a right window and number of indexed dates exactly when the
      window is no longer than that number, or every position has a date in the index. */
  lemma {:induction false} UpdateRightExactly(cal: seq<int>, n: nat, n': nat, right: nat, indexed: nat)
    requires StrictlySorted(cal) && indexed <= n < n' == |cal|
    ensures (forall rowsAt: Provider :: Updatable(rowsAt, cal, n, n', right, indexed) ==>
               UpdatedRows(rowsAt, cal, n, n', n - MinInt(right, indexed)) == Positions(rowsAt, n', 0, n'))
            <==> right <= indexed || indexed == n
  {
    hide UpdatedRows, Positions, Build, StrictlySorted;
    var cut := n - MinInt(right, indexed);
    if right <= indexed || indexed == n {
      forall rowsAt: Provider | Updatable(rowsAt, cal, n, n', right, indexed)
        ensures UpdatedRows(rowsAt, cal, n, n', cut) == Positions(rowsAt, n', 0, n')
      {
        UpdateDataExact(rowsAt, cal, n, n', cut);
      }
    } else {
      var late := LateRows(cal, n, n', n - indexed);
      LateRowsUpdatable(cal, n, n', right, indexed);
      UpdateDataExact(late, cal, n, n', cut);
      assert late(n, cut - 1) != late(n', cut - 1);
    }
  }

  /** One row at every position from first on, and one just before it that only the longer calendar has. */
  function LateRows(cal: seq<int>, n: nat, n': nat, first: nat): Provider {
    (m: nat, p: nat) =>
      if p < |cal| && (p >= first || (p + 1 == first && m == n')) then [Row(cal[p], "a", NaN)] else []
  }

  lemma {:induction false} LateRowsUpdatable(cal: seq<int>, n: nat, n': nat, right: nat, indexed: nat)
    requires StrictlySorted(cal) && indexed < right && indexed < n < n' == |cal|
    ensures Updatable(LateRows(cal, n, n', n - indexed), cal, n, n', right, indexed)
  {
    hide Build, StrictlySorted;
    var first := n - indexed;
    var late := LateRows(cal, n, n', first);
    assert Dated(late, cal) && RightWindow(late, n, n', right);
    hide Dated, RightWindow;
    NoRowsBefore(cal, n, n', first, first);
    PositionsSplit(late, n, 0, first, n);
    assert Positions(late, n, 0, n) == Positions(late, n, first, n);
    OneRowEach(cal, n, n', first, n);
    assert Positions(late, n', first, n') == Positions(late, n', first, n' - 1) + late(n', n' - 1);
    hide Positions;
  }

  lemma {:induction false} NoRowsBefore(cal: seq<int>, n: nat, n': nat, first: nat, b: nat)
    requires b <= first && n != n'
    ensures Positions(LateRows(cal, n, n', first), n, 0, b) == []
  {
    if b > 0 {
      NoRowsBefore(cal, n, n', first, b - 1);
    }
  }

  /** One more row of a later date adds one entry to the index. */
  lemma {:induction false} OneMoreEntry(before: seq<Row>, last: seq<Row>, date: int)
    requires SortedRows(before) && AllBefore(before, date) && AllFrom(last, date) && |last| == 1
    ensures |Build(before + last, 0)| == |Build(before, 0)| + 1
  {
    hide Build, SortedRows, AllBefore, AllFrom;
    BuildConcat(before, last, date, 0);
    BuildStep(last, |before|);
    EmptyBuild(|before| + 1);
    assert last[1..] == [];
  }

  lemma {:induction false} OneRowEach(cal: seq<int>, n: nat, n': nat, first: nat, b: nat)
    requires StrictlySorted(cal) && first <= b <= |cal| && n != n'
    ensures var rows := Positions(LateRows(cal, n, n', first), n, first, b);
            |rows| == b - first && |Build(rows, 0)| == b - first
            && forall j :: 0 <= j < |rows| ==> rows[j].date == cal[first + j]
    decreases b
  {
    hide Build;
    if b > first {
      OneRowEach(cal, n, n', first, b - 1);
      var late := LateRows(cal, n, n', first);
      var before, last := Positions(late, n, first, b - 1), late(n, b - 1);
      assert Positions(late, n, first, b) == before + last && last == [Row(cal[b - 1], "a", NaN)];
      assert SortedRows(before) && AllBefore(before, cal[b - 1]) && AllFrom(last, cal[b - 1]);
      hide SortedRows, AllBefore, AllFrom;
      OneMoreEntry(before, last, cal[b - 1]);
    } else {
      EmptyBuild(0);
    }
  }
}
