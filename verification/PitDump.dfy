/** The point-in-time store written by scripts/dump_pit.py: one data file of linked revision
    records and one index file with a slot per period. Offsets are byte offsets; every record
    takes RECORD_SIZE bytes, so a record's number is its offset divided by RECORD_SIZE. */
module PitDump {
  import opened Common

  const RECORD_SIZE: nat := 20
  const NA_INDEX: nat := 0xFFFF_FFFF

  datatype Row = Row(date: int, period: int, value: Cell)

  datatype Record = Record(row: Row, next: nat)

  datatype Outcome =
    | Dumped
    | AlreadyPresent
    | EmptyDataFile   // seeking one record back from the end of an empty file
    | OffsetTooLarge  // the offset does not fit the 32-bit index type
    | BeforeFirstYear // a period to be written has no slot, being before the first year of the index

  // ----- periods -----

  predicate ValidPeriod(period: int, quarterly: bool) {
    0 <= period && (quarterly ==> 1 <= period % 100 <= 4)
  }

  function Year(period: int, quarterly: bool): int {
    if quarterly then period / 100 else period
  }

  /** Slots taken by a number of years, and whole years held by a number of slots. */
  function SlotsOfYears(years: int, quarterly: bool): int {
    if quarterly then 4 * years else years
  }

  function YearsOfSlots(n: nat, quarterly: bool): nat {
    if quarterly then n / 4 else n
  }

  function PeriodOffset(firstYear: int, period: int, quarterly: bool): int {
    if quarterly then (period / 100 - firstYear) * 4 + period % 100 - 1 else period - firstYear
  }

  /** Distinct valid periods get distinct slots, in the order of the periods. */
  lemma PeriodOffsetInjective(firstYear: int, p: int, q: int, quarterly: bool)
    requires ValidPeriod(p, quarterly) && ValidPeriod(q, quarterly)
    ensures PeriodOffset(firstYear, p, quarterly) == PeriodOffset(firstYear, q, quarterly) <==> p == q
    ensures PeriodOffset(firstYear, p, quarterly) < PeriodOffset(firstYear, q, quarterly) <==> p < q
  {
    assert p == p / 100 * 100 + p % 100;
    assert q == q / 100 * 100 + q % 100;
  }

  /** The slots of the years [firstYear, lastYear] fill the index exactly. */
  lemma PeriodOffsetInRange(firstYear: int, lastYear: int, p: int, quarterly: bool)
    requires ValidPeriod(p, quarterly)
    ensures firstYear <= Year(p, quarterly) <= lastYear <==>
            0 <= PeriodOffset(firstYear, p, quarterly) < SlotsOfYears(lastYear - firstYear + 1, quarterly)
  {
  }

  /** The whole years held by some slots are the most whose slots are all there. */
  lemma {:induction false} YearsOfSlotsExact(n: nat, years: nat, quarterly: bool)
    ensures years <= YearsOfSlots(n, quarterly) <==> SlotsOfYears(years, quarterly) <= n
  {
  }

  /** Every row's period has a slot in an index of `n` slots. */
  predicate AllFit(rows: seq<Row>, firstYear: int, quarterly: bool, n: nat) {
    forall i :: 0 <= i < |rows| ==> 0 <= PeriodOffset(firstYear, rows[i].period, quarterly) < n
  }

  /** The same but for periods before the first year. */
  predicate BelowEnd(rows: seq<Row>, firstYear: int, quarterly: bool, n: nat) {
    forall i :: 0 <= i < |rows| ==> PeriodOffset(firstYear, rows[i].period, quarterly) < n
  }

  /** The number of rows before the first one of a period before the first year. */
  function LeadingFit(rows: seq<Row>, firstYear: int, quarterly: bool): (k: nat)
    ensures k <= |rows| && forall i :: 0 <= i < k ==> 0 <= PeriodOffset(firstYear, rows[i].period, quarterly)
    ensures k < |rows| ==> PeriodOffset(firstYear, rows[k].period, quarterly) < 0
  {
    if rows == [] || PeriodOffset(firstYear, rows[0].period, quarterly) < 0 then 0
    else
      assert forall i :: 0 < i < |rows| ==> rows[1..][i - 1] == rows[i];
      1 + LeadingFit(rows[1..], firstYear, quarterly)
  }

  function MinPeriod(rows: seq<Row>): (m: int)
    requires rows != []
    ensures forall i :: 0 <= i < |rows| ==> m <= rows[i].period
    ensures exists i :: 0 <= i < |rows| && m == rows[i].period
  {
    if |rows| == 1 then rows[0].period
    else
      var m := MinPeriod(rows[1..]);
      assert forall i :: 0 < i < |rows| ==> rows[i] == rows[1..][i - 1];
      if rows[0].period <= m then rows[0].period else m
  }

  function MaxPeriod(rows: seq<Row>): (m: int)
    requires rows != []
    ensures forall i :: 0 <= i < |rows| ==> rows[i].period <= m
    ensures exists i :: 0 <= i < |rows| && m == rows[i].period
  {
    if |rows| == 1 then rows[0].period
    else
      var m := MaxPeriod(rows[1..]);
      assert forall i :: 0 < i < |rows| ==> rows[i] == rows[1..][i - 1];
      if rows[0].period >= m then rows[0].period else m
  }

  // ----- chains -----

  function RowsOf(recs: seq<Record>): (rows: seq<Row>)
    ensures |rows| == |recs|
    ensures forall i :: 0 <= i < |recs| ==> rows[i] == recs[i].row
  {
    seq(|recs|, i requires 0 <= i < |recs| => recs[i].row)
  }

  /** An offset found in a slot or in a `next` field: missing, or the start of an existing record. */
  predicate IsLink(off: nat, count: nat) {
    off == NA_INDEX || (off % RECORD_SIZE == 0 && off / RECORD_SIZE < count)
  }

  /** Every chain is finite: some measure drops along each `next` field. */
  ghost predicate Ranked(recs: seq<Record>, rank: seq<nat>) {
    && |rank| == |recs|
    && forall k {:trigger recs[k]} :: 0 <= k < |recs| ==>
         IsLink(recs[k].next, |recs|) &&
         (recs[k].next != NA_INDEX ==> rank[recs[k].next / RECORD_SIZE] < rank[k])
  }

  ghost predicate Acyclic(recs: seq<Record>) {
    exists rank :: Ranked(recs, rank)
  }

  /** Every `next` field points further down the file. */
  predicate Forward(recs: seq<Record>) {
    forall k :: 0 <= k < |recs| ==>
      IsLink(recs[k].next, |recs|) && (recs[k].next != NA_INDEX ==> k < recs[k].next / RECORD_SIZE)
  }

  lemma ForwardIsAcyclic(recs: seq<Record>)
    requires Forward(recs)
    ensures Acyclic(recs)
  {
    var rank := seq(|recs|, i requires 0 <= i < |recs| => |recs| - i);
    assert Ranked(recs, rank);
  }

  /** The record numbers met when following `next` from an offset. */
  function Chain(recs: seq<Record>, off: nat): (c: seq<nat>)
    requires Forward(recs) && IsLink(off, |recs|)
    ensures off == NA_INDEX <==> c == []
    ensures forall i :: 0 <= i < |c| ==> c[i] < |recs|
    ensures c != [] ==> c[0] == off / RECORD_SIZE
    decreases if off == NA_INDEX then 0 else |recs| - off / RECORD_SIZE
  {
    if off == NA_INDEX then [] else [off / RECORD_SIZE] + Chain(recs, recs[off / RECORD_SIZE].next)
  }

  lemma {:induction false} ChainIncreases(recs: seq<Record>, off: nat)
    requires Forward(recs) && IsLink(off, |recs|)
    ensures forall i, j :: 0 <= i < j < |Chain(recs, off)| ==> Chain(recs, off)[i] < Chain(recs, off)[j]
    decreases if off == NA_INDEX then 0 else |recs| - off / RECORD_SIZE
  {
    if off != NA_INDEX {
      var next := recs[off / RECORD_SIZE].next;
      ChainIncreases(recs, next);
      var rest := Chain(recs, next);
      assert rest != [] ==> off / RECORD_SIZE < rest[0];
    }
  }

  /** The record a chain ends at. */
  function Tail(recs: seq<Record>, off: nat): (k: nat)
    requires Forward(recs) && IsLink(off, |recs|) && off != NA_INDEX
    ensures off / RECORD_SIZE <= k < |recs|
    decreases |recs| - off / RECORD_SIZE
  {
    var next := recs[off / RECORD_SIZE].next;
    if next == NA_INDEX then off / RECORD_SIZE else Tail(recs, next)
  }

  lemma {:induction false} TailIsLast(recs: seq<Record>, off: nat)
    requires Forward(recs) && IsLink(off, |recs|) && off != NA_INDEX
    ensures recs[Tail(recs, off)].next == NA_INDEX
    ensures Tail(recs, off) in Chain(recs, off)
    ensures Tail(recs, off) == Chain(recs, off)[|Chain(recs, off)| - 1]
    decreases |recs| - off / RECORD_SIZE
  {
    var next := recs[off / RECORD_SIZE].next;
    if next != NA_INDEX {
      TailIsLast(recs, next);
    }
  }

  /** The record numbers of one slot in publication order, by scanning the rows. */
  function Positions(rows: seq<Row>, firstYear: int, quarterly: bool, slot: int): (ps: seq<nat>)
    ensures forall i :: 0 <= i < |ps| ==> ps[i] < |rows|
  {
    if rows == [] then []
    else
      var n := |rows| - 1;
      Positions(rows[..n], firstYear, quarterly, slot) +
      if PeriodOffset(firstYear, rows[n].period, quarterly) == slot then [n] else []
  }

  /** Positions is the strictly increasing list of exactly the rows that belong to the slot. */
  lemma {:induction false} PositionsExact(rows: seq<Row>, firstYear: int, quarterly: bool, slot: int)
    ensures var ps := Positions(rows, firstYear, quarterly, slot);
            && (forall i, j :: 0 <= i < j < |ps| ==> ps[i] < ps[j])
            && (forall k: nat :: k in ps <==>
                  k < |rows| && PeriodOffset(firstYear, rows[k].period, quarterly) == slot)
  {
    if rows != [] {
      PositionsExact(rows[..|rows| - 1], firstYear, quarterly, slot);
    }
  }

  /** The store is right: each slot heads the chain of exactly its own records, in file order. */
  ghost predicate ChainsMatch(recs: seq<Record>, slots: seq<nat>, firstYear: int, quarterly: bool) {
    && Forward(recs)
    && (forall k :: 0 <= k < |recs| ==>
          0 <= PeriodOffset(firstYear, recs[k].row.period, quarterly) < |slots|)
    && (forall s :: 0 <= s < |slots| ==> IsLink(slots[s], |recs|))
    && (forall s :: 0 <= s < |slots| ==>
          Chain(recs, slots[s]) == Positions(RowsOf(recs), firstYear, quarterly, s))
  }

  /** Consequences spelled out: along a chain offsets strictly increase, and each record lies on
      the chain of its own period and on no other. */
  lemma {:induction false} EveryRecordOnOneChain(recs: seq<Record>, slots: seq<nat>, firstYear: int, quarterly: bool)
    requires ChainsMatch(recs, slots, firstYear, quarterly)
    ensures forall s, i, j :: 0 <= s < |slots| && 0 <= i < j < |Chain(recs, slots[s])| ==>
              Chain(recs, slots[s])[i] < Chain(recs, slots[s])[j]
    ensures forall k: nat, s :: k < |recs| && 0 <= s < |slots| ==>
              (k in Chain(recs, slots[s]) <==> PeriodOffset(firstYear, recs[k].row.period, quarterly) == s)
  {
    forall s | 0 <= s < |slots|
      ensures forall i, j :: 0 <= i < j < |Chain(recs, slots[s])| ==>
                Chain(recs, slots[s])[i] < Chain(recs, slots[s])[j]
      ensures forall k: nat :: k < |recs| ==>
                (k in Chain(recs, slots[s]) <==> PeriodOffset(firstYear, recs[k].row.period, quarterly) == s)
    {
      PositionsExact(RowsOf(recs), firstYear, quarterly, s);
    }
  }

  // ----- one row at the end of the data -----

  /** What writing one row at the end of the data does to the two files. */
  function AppendRow(recs: seq<Record>, slots: seq<nat>, firstYear: int, quarterly: bool, row: Row)
    : (r: (seq<Record>, seq<nat>))
    requires Forward(recs) && forall s :: 0 <= s < |slots| ==> IsLink(slots[s], |recs|)
    requires 0 <= PeriodOffset(firstYear, row.period, quarterly) < |slots|
  {
    var s := PeriodOffset(firstYear, row.period, quarterly);
    var here := RECORD_SIZE * |recs|;
    if slots[s] == NA_INDEX then
      (recs + [Record(row, NA_INDEX)], slots[s := here])
    else
      var tail := Tail(recs, slots[s]);
      (recs[tail := recs[tail].(next := here)] + [Record(row, NA_INDEX)], slots)
  }

  /** A chain is not affected by changes to records that are not on it. */
  lemma {:induction false} ChainFrame(recs: seq<Record>, recs': seq<Record>, off: nat)
    requires Forward(recs) && Forward(recs') && |recs| <= |recs'| && IsLink(off, |recs|)
    requires forall k: nat :: k in Chain(recs, off) ==> recs'[k].next == recs[k].next
    ensures Chain(recs', off) == Chain(recs, off)
    decreases if off == NA_INDEX then 0 else |recs| - off / RECORD_SIZE
  {
    if off != NA_INDEX {
      var k := off / RECORD_SIZE;
      assert Chain(recs, off)[0] == k;
      assert forall j: nat :: j in Chain(recs, recs[k].next) ==> j in Chain(recs, off);
      ChainFrame(recs, recs', recs[k].next);
    }
  }

  /** Pointing the last record of a chain at a new last record makes the chain one longer. */
  lemma {:induction false} ChainGrow(recs: seq<Record>, recs': seq<Record>, off: nat)
    requires Forward(recs) && Forward(recs') && IsLink(off, |recs|) && off != NA_INDEX
    requires |recs'| == |recs| + 1 && recs'[|recs|].next == NA_INDEX
    requires recs'[Tail(recs, off)].next == RECORD_SIZE * |recs| && RECORD_SIZE * |recs| < NA_INDEX
    requires forall k :: 0 <= k < |recs| && k != Tail(recs, off) ==> recs'[k].next == recs[k].next
    ensures Chain(recs', off) == Chain(recs, off) + [|recs|]
    decreases |recs| - off / RECORD_SIZE
  {
    var k := off / RECORD_SIZE;
    if recs[k].next == NA_INDEX {
      assert Chain(recs', recs'[|recs|].next) == [];
      assert Chain(recs', recs'[k].next) == [|recs|];
    } else {
      ChainGrow(recs, recs', recs[k].next);
    }
  }

  lemma {:induction false} AppendRowShape(recs: seq<Record>, slots: seq<nat>, firstYear: int, quarterly: bool, row: Row)
    requires Forward(recs) && forall s :: 0 <= s < |slots| ==> IsLink(slots[s], |recs|)
    requires 0 <= PeriodOffset(firstYear, row.period, quarterly) < |slots|
    requires RECORD_SIZE * |recs| < NA_INDEX
    ensures var (recs', slots') := AppendRow(recs, slots, firstYear, quarterly, row);
            && |recs'| == |recs| + 1 && Forward(recs') && recs'[|recs|] == Record(row, NA_INDEX)
            && |slots'| == |slots| && forall s :: 0 <= s < |slots| ==> IsLink(slots'[s], |recs'|)
    ensures RowsOf(AppendRow(recs, slots, firstYear, quarterly, row).0) == RowsOf(recs) + [row]
  {
  }

  /** The chain of one slot after a row has been written at the end of the data. */
  lemma {:induction false} AppendRowChain(
      recs: seq<Record>, slots: seq<nat>, firstYear: int, quarterly: bool, row: Row, s: nat)
    requires ChainsMatch(recs, slots, firstYear, quarterly)
    requires 0 <= PeriodOffset(firstYear, row.period, quarterly) < |slots| && s < |slots|
    requires RECORD_SIZE * |recs| < NA_INDEX
    ensures var (recs', slots') := AppendRow(recs, slots, firstYear, quarterly, row);
            && Forward(recs') && |slots'| == |slots| && IsLink(slots'[s], |recs'|)
            && Chain(recs', slots'[s]) == Chain(recs, slots[s]) +
                 if s == PeriodOffset(firstYear, row.period, quarterly) then [|recs|] else []
  {
    AppendRowShape(recs, slots, firstYear, quarterly, row);
    var own := PeriodOffset(firstYear, row.period, quarterly);
    if s != own {
      AppendRowOtherChain(recs, slots, firstYear, quarterly, row, s);
    } else {
      AppendRowOwnChain(recs, slots, firstYear, quarterly, row);
    }
  }

  lemma {:induction false} AppendRowOtherChain(
      recs: seq<Record>, slots: seq<nat>, firstYear: int, quarterly: bool, row: Row, s: nat)
    requires ChainsMatch(recs, slots, firstYear, quarterly)
    requires 0 <= PeriodOffset(firstYear, row.period, quarterly) < |slots| && s < |slots|
    requires s != PeriodOffset(firstYear, row.period, quarterly)
    requires Forward(AppendRow(recs, slots, firstYear, quarterly, row).0)
    requires IsLink(slots[s], |recs| + 1)
    ensures Chain(AppendRow(recs, slots, firstYear, quarterly, row).0, slots[s]) == Chain(recs, slots[s])
  {
    var recs' := AppendRow(recs, slots, firstYear, quarterly, row).0;
    var own: nat := PeriodOffset(firstYear, row.period, quarterly);
    forall k: nat | k in Chain(recs, slots[s])
      ensures recs'[k].next == recs[k].next
    {
      if slots[own] != NA_INDEX {
        TailIsLast(recs, slots[own]);
        OneChainOnly(recs, slots, firstYear, quarterly, s, k);
        OneChainOnly(recs, slots, firstYear, quarterly, own, Tail(recs, slots[own]));
      }
    }
    ChainFrame(recs, recs', slots[s]);
  }

  lemma {:induction false} AppendRowOwnChain(
      recs: seq<Record>, slots: seq<nat>, firstYear: int, quarterly: bool, row: Row)
    requires Forward(recs) && forall s :: 0 <= s < |slots| ==> IsLink(slots[s], |recs|)
    requires 0 <= PeriodOffset(firstYear, row.period, quarterly) < |slots|
    requires RECORD_SIZE * |recs| < NA_INDEX
    ensures var (recs', slots') := AppendRow(recs, slots, firstYear, quarterly, row);
            var own := PeriodOffset(firstYear, row.period, quarterly);
            && Forward(recs') && |slots'| == |slots| && IsLink(slots'[own], |recs'|)
            && Chain(recs', slots'[own]) == Chain(recs, slots[own]) + [|recs|]
  {
    var (recs', slots') := AppendRow(recs, slots, firstYear, quarterly, row);
    AppendRowShape(recs, slots, firstYear, quarterly, row);
    var own := PeriodOffset(firstYear, row.period, quarterly);
    if slots[own] == NA_INDEX {
      assert slots'[own] / RECORD_SIZE == |recs|;
      assert Chain(recs', recs'[|recs|].next) == [];
    } else {
      ChainGrow(recs, recs', slots[own]);
    }
  }

  lemma {:induction false} OneChainOnly(
      recs: seq<Record>, slots: seq<nat>, firstYear: int, quarterly: bool, s: nat, k: nat)
    requires ChainsMatch(recs, slots, firstYear, quarterly)
    requires s < |slots| && k in Chain(recs, slots[s])
    ensures k < |recs| && PeriodOffset(firstYear, recs[k].row.period, quarterly) == s
  {
    PositionsExact(RowsOf(recs), firstYear, quarterly, s);
  }

  /** Writing a row at the end of the data keeps every chain right. */
  lemma {:induction false} AppendRowKeepsChains(
      recs: seq<Record>, slots: seq<nat>, firstYear: int, quarterly: bool, row: Row)
    requires ChainsMatch(recs, slots, firstYear, quarterly)
    requires 0 <= PeriodOffset(firstYear, row.period, quarterly) < |slots|
    requires RECORD_SIZE * |recs| < NA_INDEX
    ensures var (recs', slots') := AppendRow(recs, slots, firstYear, quarterly, row);
            && ChainsMatch(recs', slots', firstYear, quarterly)
            && RowsOf(recs') == RowsOf(recs) + [row]
            && |slots'| == |slots|
  {
    var r := AppendRow(recs, slots, firstYear, quarterly, row);
    AppendRowShape(recs, slots, firstYear, quarterly, row);
    forall k | 0 <= k < |r.0|
      ensures 0 <= PeriodOffset(firstYear, r.0[k].row.period, quarterly) < |slots|
    {
      assert r.0[k].row == RowsOf(r.0)[k];
      if k < |recs| {
        assert RowsOf(recs)[k] == recs[k].row;
      }
    }
    forall s: nat | s < |slots|
      ensures Chain(r.0, r.1[s]) == Positions(RowsOf(r.0), firstYear, quarterly, s)
    {
      AppendRowChain(recs, slots, firstYear, quarterly, row, s);
      PositionsSnoc(RowsOf(recs), row, firstYear, quarterly, s);
    }
  }

  lemma {:induction false} PositionsSnoc(rows: seq<Row>, row: Row, firstYear: int, quarterly: bool, slot: int)
    ensures Positions(rows + [row], firstYear, quarterly, slot) ==
            Positions(rows, firstYear, quarterly, slot) +
              if PeriodOffset(firstYear, row.period, quarterly) == slot then [|rows|] else []
  {
    assert (rows + [row])[..|rows|] == rows;
  }

  // ----- a whole dump into an empty data file -----

  /** All slots start out missing. */
  function MissingSlots(n: nat): (s: seq<nat>)
    ensures |s| == n && forall i :: 0 <= i < n ==> s[i] == NA_INDEX
  {
    seq(n, _ => NA_INDEX)
  }

  /** Whether every offset needed to hold `n` records fits the 32-bit index type. */
  predicate OffsetsFit(n: nat) {
    n == 0 || RECORD_SIZE * (n - 1) <= NA_INDEX
  }

  lemma {:induction false} EmptyStoreMatches(recs: seq<Record>, slots: seq<nat>, firstYear: int, quarterly: bool)
    requires forall i :: 0 <= i < |slots| ==> IsLink(slots[i], |recs|)
    ensures recs == [] ==> ChainsMatch(recs, slots, firstYear, quarterly)
  {
  }

  /** Slots for later years can be added to a right store. */
  lemma {:induction false} MoreSlotsKeepChains(
      recs: seq<Record>, slots: seq<nat>, n: nat, firstYear: int, quarterly: bool)
    requires ChainsMatch(recs, slots, firstYear, quarterly)
    ensures ChainsMatch(recs, slots + MissingSlots(n), firstYear, quarterly)
  {
    forall s | |slots| <= s < |slots| + n
      ensures Positions(RowsOf(recs), firstYear, quarterly, s) == []
    {
      NoPositions(RowsOf(recs), firstYear, quarterly, s);
    }
  }

  lemma {:induction false} NoPositions(rows: seq<Row>, firstYear: int, quarterly: bool, slot: int)
    requires forall k :: 0 <= k < |rows| ==> PeriodOffset(firstYear, rows[k].period, quarterly) != slot
    ensures Positions(rows, firstYear, quarterly, slot) == []
  {
    if rows != [] {
      NoPositions(rows[..|rows| - 1], firstYear, quarterly, slot);
    }
  }

  /** Two right stores over the same rows are the same files: the format has no freedom left. */
  lemma ChainsDetermineFiles(
    a: seq<Record>, b: seq<Record>, slotsA: seq<nat>, slotsB: seq<nat>, firstYear: int, quarterly: bool)
    requires ChainsMatch(a, slotsA, firstYear, quarterly) && ChainsMatch(b, slotsB, firstYear, quarterly)
    requires RowsOf(a) == RowsOf(b) && |slotsA| == |slotsB|
    ensures a == b && slotsA == slotsB
  {
    forall s | 0 <= s < |slotsA|
      ensures slotsA[s] == slotsB[s]
    {
      assert Chain(a, slotsA[s]) == Chain(b, slotsB[s]);
      SameChainSameHead(a, b, slotsA[s], slotsB[s]);
    }
    forall k: nat | k < |a|
      ensures a[k] == b[k]
    {
      assert RowsOf(a)[k] == RowsOf(b)[k];
      var s := PeriodOffset(firstYear, a[k].row.period, quarterly);
      EveryRecordOnOneChain(a, slotsA, firstYear, quarterly);
      ChainsAgree(a, b, slotsA[s], slotsB[s], k);
    }
  }

  lemma SameChainSameHead(a: seq<Record>, b: seq<Record>, x: nat, y: nat)
    requires Forward(a) && Forward(b) && |a| == |b| && IsLink(x, |a|) && IsLink(y, |b|)
    requires Chain(a, x) == Chain(b, y)
    ensures x == y
  {
    if x != NA_INDEX {
      assert x == x / RECORD_SIZE * RECORD_SIZE && y == y / RECORD_SIZE * RECORD_SIZE;
    }
  }

  lemma {:induction false} ChainsAgree(a: seq<Record>, b: seq<Record>, x: nat, y: nat, k: nat)
    requires Forward(a) && Forward(b) && |a| == |b| && IsLink(x, |a|) && IsLink(y, |b|)
    requires Chain(a, x) == Chain(b, y) && k in Chain(a, x)
    ensures a[k].next == b[k].next
    decreases if x == NA_INDEX then 0 else |a| - x / RECORD_SIZE
  {
    SameChainSameHead(a, b, x, y);
    var h := x / RECORD_SIZE;
    assert Chain(a, a[h].next) == Chain(a, x)[1..] == Chain(b, y)[1..] == Chain(b, b[h].next);
    if k == h {
      SameChainSameHead(a, b, a[h].next, b[h].next);
    } else {
      ChainsAgree(a, b, a[h].next, b[h].next, k);
    }
  }

  /** Writing rows one after the other at the end of the data keeps every chain right and
      leaves exactly the old rows followed by the new ones. */
  ghost function AppendRows(recs: seq<Record>, slots: seq<nat>, firstYear: int, quarterly: bool, rows: seq<Row>)
    : (r: (seq<Record>, seq<nat>))
    requires ChainsMatch(recs, slots, firstYear, quarterly)
    requires AllFit(rows, firstYear, quarterly, |slots|)
    requires OffsetsFit(|recs| + |rows|)
    ensures ChainsMatch(r.0, r.1, firstYear, quarterly)
    ensures RowsOf(r.0) == RowsOf(recs) + rows && |r.1| == |slots|
    decreases |rows|
  {
    if rows == [] then
      (recs, slots)
    else
      AppendRowKeepsChains(recs, slots, firstYear, quarterly, rows[0]);
      var (recs', slots') := AppendRow(recs, slots, firstYear, quarterly, rows[0]);
      assert RowsOf(recs) + rows == RowsOf(recs') + rows[1..];
      AppendRows(recs', slots', firstYear, quarterly, rows[1..])
  }

  // ----- writing from a given place -----

  /** Rows written from the start of a file that already holds rows. */
  function Overlay(base: seq<Row>, rows: seq<Row>): seq<Row> {
    if |rows| <= |base| then rows + base[|rows|..] else rows
  }

  /** The non-overwriting dump reopens existing data at its first byte, so it adds the new rows
      to the old ones exactly when one of the two is empty. */
  lemma {:induction false} OverlayAppendsOnlyIfTrivial(base: seq<Row>, rows: seq<Row>)
    ensures Overlay(base, rows) == base + rows <==> base == [] || rows == []
  {
    if base != [] && rows != [] {
      assert |Overlay(base, rows)| < |base + rows|;
    } else if rows == [] {
      assert Overlay(base, rows) == base == base + rows;
    }
  }

  /** Rows published after the last stored date. */
  function PublishedAfter(rows: seq<Row>, date: int): seq<Row> {
    if rows == [] then []
    else
      var rest := PublishedAfter(rows[1..], date);
      if rows[0].date > date then [rows[0]] + rest else rest
  }

  /** The positions of the rows published after a date, in order. */
  ghost predicate After(kept: seq<nat>, rows: seq<Row>, date: int) {
    && (forall i, j :: 0 <= i < j < |kept| ==> kept[i] < kept[j])
    && forall j :: j in kept <==> 0 <= j < |rows| && rows[j].date > date
  }

  predicate PickedAt(picked: seq<Row>, kept: seq<nat>, rows: seq<Row>) {
    |picked| == |kept| && forall i :: 0 <= i < |kept| ==> kept[i] < |rows| && picked[i] == rows[kept[i]]
  }

  lemma {:induction false} PublishedAfterAppend(a: seq<Row>, b: seq<Row>, date: int)
    ensures PublishedAfter(a + b, date) == PublishedAfter(a, date) + PublishedAfter(b, date)
    decreases |a|
  {
    if a == [] {
      assert a + b == b;
    } else {
      assert (a + b)[0] == a[0] && (a + b)[1..] == a[1..] + b;
      PublishedAfterAppend(a[1..], b, date);
    }
  }

  /** The rows kept are exactly those at the positions of a later publication, each once and in order. */
  lemma {:induction false} PublishedAfterExact(rows: seq<Row>, date: int)
    ensures exists kept :: After(kept, rows, date) && PickedAt(PublishedAfter(rows, date), kept, rows)
    decreases |rows|
  {
    if rows == [] {
      assert After([], rows, date) && PickedAt([], [], rows);
    } else {
      var n := |rows| - 1;
      PublishedAfterExact(rows[..n], date);
      LastPublished(rows, date);
      hide PublishedAfter, After, PickedAt;
      var picked := PublishedAfter(rows[..n], date);
      var kept: seq<nat> :| After(kept, rows[..n], date) && PickedAt(picked, kept, rows[..n]);
      AfterLast(kept, rows, date);
      PickedLast(picked, kept, rows, date);
    }
  }

  lemma {:induction false} LastPublished(rows: seq<Row>, date: int)
    requires rows != []
    ensures var n := |rows| - 1;
            PublishedAfter(rows, date) ==
            PublishedAfter(rows[..n], date) + if rows[n].date > date then [rows[n]] else []
  {
    var n := |rows| - 1;
    assert rows == rows[..n] + [rows[n]];
    PublishedAfterAppend(rows[..n], [rows[n]], date);
    assert PublishedAfter([rows[n]], date) == if rows[n].date > date then [rows[n]] else [];
  }

  lemma {:induction false} PickedLast(picked: seq<Row>, kept: seq<nat>, rows: seq<Row>, date: int)
    requires rows != [] && PickedAt(picked, kept, rows[..|rows| - 1])
    ensures var n := |rows| - 1;
            PickedAt(picked + (if rows[n].date > date then [rows[n]] else []),
                     kept + (if rows[n].date > date then [n] else []), rows)
  {
    assert forall i :: 0 <= i < |rows| - 1 ==> rows[..|rows| - 1][i] == rows[i];
  }

  lemma {:induction false} AfterLast(kept: seq<nat>, rows: seq<Row>, date: int)
    requires rows != []
    requires var n := |rows| - 1; After(kept, rows[..n], date)
    ensures var n := |rows| - 1; After(kept + if rows[n].date > date then [n] else [], rows, date)
  {
    var n := |rows| - 1;
    var more := if rows[n].date > date then [n] else [];
    assert forall i :: 0 <= i < |kept| ==> kept[i] in kept;
    forall j
      ensures j in kept + more <==> 0 <= j < |rows| && rows[j].date > date
    {
      assert j in kept + more <==> j in kept || j in more;
      assert 0 <= j < n ==> rows[..n][j] == rows[j];
    }
  }

  lemma {:induction false} PublishedAfterWithin(rows: seq<Row>, date: int)
    ensures forall x :: x in PublishedAfter(rows, date) <==> x in rows && x.date > date
  {
    if rows != [] {
      PublishedAfterWithin(rows[1..], date);
    }
  }

  lemma {:induction false} PublishedAfterFits(rows: seq<Row>, date: int, firstYear: int, quarterly: bool, n: nat)
    requires BelowEnd(rows, firstYear, quarterly, n)
    ensures BelowEnd(PublishedAfter(rows, date), firstYear, quarterly, n)
  {
    if rows != [] {
      assert forall i :: 0 <= i < |rows[1..]| ==> rows[1..][i] == rows[i + 1];
      PublishedAfterFits(rows[1..], date, firstYear, quarterly, n);
    }
  }

  /** Writing one record and redirecting some `next` fields to it cannot close a cycle. */
  lemma {:induction false} WriteKeepsAcyclic(recs: seq<Record>, recs': seq<Record>, pos: nat)
    requires Acyclic(recs) && pos <= |recs|
    requires |recs'| == if pos == |recs| then |recs| + 1 else |recs|
    requires recs'[pos].next == NA_INDEX
    requires forall k :: 0 <= k < |recs| && k != pos ==>
               recs'[k].next == recs[k].next || recs'[k].next == RECORD_SIZE * pos
    ensures Acyclic(recs')
  {
    var rank :| Ranked(recs, rank);
    var rank' := seq(|recs'|, k requires 0 <= k < |recs'| => if k == pos then 0 else rank[k] + 1);
    assert Ranked(recs', rank');
  }

  lemma {:induction false} SlotsCoverRows(rows: seq<Row>, firstYear: int, lastYear: int, quarterly: bool)
    requires forall i :: 0 <= i < |rows| ==>
               ValidPeriod(rows[i].period, quarterly) && Year(rows[i].period, quarterly) <= lastYear
    requires firstYear <= lastYear
    ensures BelowEnd(rows, firstYear, quarterly, SlotsOfYears(lastYear - firstYear + 1, quarterly))
    ensures (forall i :: 0 <= i < |rows| ==> firstYear <= Year(rows[i].period, quarterly)) <==>
            LeadingFit(rows, firstYear, quarterly) == |rows|
  {
    hide LeadingFit;
    forall i | 0 <= i < |rows|
      ensures PeriodOffset(firstYear, rows[i].period, quarterly) < SlotsOfYears(lastYear - firstYear + 1, quarterly)
      ensures firstYear <= Year(rows[i].period, quarterly) <==> 0 <= PeriodOffset(firstYear, rows[i].period, quarterly)
    {
      PeriodOffsetInRange(firstYear, lastYear, rows[i].period, quarterly);
      PeriodOffsetInRange(MinInt(firstYear, Year(rows[i].period, quarterly)), lastYear, rows[i].period, quarterly);
    }
  }

  /** The years of the rows lie between those of their least and greatest periods. */
  lemma {:induction false} PeriodYears(rows: seq<Row>, quarterly: bool)
    requires rows != []
    ensures forall i :: 0 <= i < |rows| ==>
              Year(MinPeriod(rows), quarterly) <= Year(rows[i].period, quarterly) <= Year(MaxPeriod(rows), quarterly)
  {
    forall i | 0 <= i < |rows|
      ensures Year(MinPeriod(rows), quarterly) <= Year(rows[i].period, quarterly) <= Year(MaxPeriod(rows), quarterly)
    {
      YearMonotone(MinPeriod(rows), rows[i].period, quarterly);
      YearMonotone(rows[i].period, MaxPeriod(rows), quarterly);
    }
  }

  lemma {:induction false} YearMonotone(a: int, b: int, quarterly: bool)
    requires a <= b
    ensures Year(a, quarterly) <= Year(b, quarterly)
  {
  }

  predicate Grown(slots: seq<nat>, slots': seq<nat>) {
    |slots| <= |slots'| && slots' == slots + MissingSlots(|slots'| - |slots|)
  }

  /** A dump beside existing records leaves a right store holding old and new rows exactly when
      there was nothing new to write. */
  lemma {:induction false} DumpBesideRecords(
    recs0: seq<Record>, slots0: seq<nat>, grown: seq<nat>, recs: seq<Record>, slots: seq<nat>,
    firstYear: int, quarterly: bool, added: seq<Row>)
    requires ChainsMatch(recs0, slots0, firstYear, quarterly) && recs0 != [] && Grown(slots0, grown)
    requires RowsOf(recs) == Overlay(RowsOf(recs0), added)
    requires added == [] ==> recs == recs0 && slots == grown
    ensures ChainsMatch(recs, slots, firstYear, quarterly) && RowsOf(recs) == RowsOf(recs0) + added <==> added == []
  {
    OverlayAppendsOnlyIfTrivial(RowsOf(recs0), added);
    MoreSlotsKeepChains(recs0, slots0, |grown| - |slots0|, firstYear, quarterly);
  }

  ghost predicate Linked(recs: seq<Record>, slots: seq<nat>) {
    && Acyclic(recs)
    && forall s :: 0 <= s < |slots| ==> IsLink(slots[s], |recs|)
  }

  lemma {:induction false} EmptyIsLinked(slots: seq<nat>)
    requires forall i :: 0 <= i < |slots| ==> slots[i] == NA_INDEX
    ensures Linked([], slots)
  {
    ForwardIsAcyclic([]);
  }

  /** One field of one symbol: its index file, its data file, and the position of the open data file. */
  class PitField {
    const quarterly: bool
    var indexExists: bool
    var firstYear: int
    var slots: seq<nat>
    var dataExists: bool
    var recs: seq<Record>
    var fd: nat

    constructor (quarterly: bool)
      ensures this.quarterly == quarterly && Valid() && !indexExists && !dataExists
    {
      this.quarterly := quarterly;
      indexExists, firstYear, slots := false, 0, [];
      dataExists, recs, fd := false, [], 0;
      new;
      ForwardIsAcyclic([]);
    }

    ghost predicate Valid()
      reads this
    {
      && Linked(recs, slots)
      && (quarterly ==> |slots| % 4 == 0)
      && (!indexExists ==> slots == [])
      && (!dataExists ==> recs == [])
    }

    /** The data file is open and positioned at the start of a record or at its end. */
    ghost predicate Open()
      reads `recs, `slots, `fd
    {
      Linked(recs, slots) && fd % RECORD_SIZE == 0 && fd / RECORD_SIZE <= |recs|
    }

    function At(row: Row): int
      reads `firstYear
    {
      PeriodOffset(firstYear, row.period, quarterly)
    }

    /** Follow `next` from a slot to the last record of its chain. */
    method FindTail(offset: nat) returns (tail: nat)
      requires Linked(recs, slots) && offset < |slots| && slots[offset] != NA_INDEX
      modifies `fd
      ensures tail % RECORD_SIZE == 0 && tail / RECORD_SIZE < |recs|
      ensures recs[tail / RECORD_SIZE].next == NA_INDEX
      ensures Forward(recs) ==> tail / RECORD_SIZE == Tail(recs, slots[offset])
    {
      var curIndex: nat := slots[offset];
      var prevIndex: nat := NA_INDEX;
      ghost var rank :| Ranked(recs, rank);
      while curIndex != NA_INDEX
        invariant IsLink(curIndex, |recs|) && IsLink(prevIndex, |recs|)
        invariant prevIndex == NA_INDEX ==> curIndex == slots[offset]
        invariant prevIndex != NA_INDEX ==> recs[prevIndex / RECORD_SIZE].next == curIndex
        invariant Forward(recs) ==>
                    Tail(recs, slots[offset]) ==
                      if curIndex == NA_INDEX then prevIndex / RECORD_SIZE else Tail(recs, curIndex)
        decreases if curIndex == NA_INDEX then 0 else rank[curIndex / RECORD_SIZE] + 1
      {
        fd := curIndex + RECORD_SIZE - INDEX_SIZE;
        prevIndex := curIndex;
        curIndex := recs[curIndex / RECORD_SIZE].next;
        fd := fd + INDEX_SIZE;
      }
      tail := prevIndex;
    }

    /** One iteration of the row loop. Fails when the period has no slot, or when the offset to be stored
        does not fit. */
    method DumpRow(row: Row) returns (outcome: Outcome)
      requires Open() && PeriodOffset(firstYear, row.period, quarterly) < |slots|
      modifies `slots, `recs, `fd
      ensures outcome == if PeriodOffset(firstYear, row.period, quarterly) < 0 then BeforeFirstYear
                         else if old(fd) > NA_INDEX then OffsetTooLarge
                         else Dumped
      ensures outcome != Dumped ==> recs == old(recs) && slots == old(slots)
      ensures outcome == Dumped ==> Open() && fd == old(fd) + RECORD_SIZE && |slots| == |old(slots)|
      ensures outcome == Dumped ==> RowsOf(recs) == WriteAt(RowsOf(old(recs)), old(fd) / RECORD_SIZE, row)
      ensures outcome == Dumped && old(fd) == RECORD_SIZE * |old(recs)|
              && ChainsMatch(old(recs), old(slots), old(firstYear), quarterly) ==>
                ChainsMatch(recs, slots, firstYear, quarterly)
    {
      hide Linked, ChainsMatch, Forward, AppendRow, PeriodOffset, RowsOf, WriteAt;
      if PeriodOffset(firstYear, row.period, quarterly) < 0 {
        return BeforeFirstYear;
      }
      var stored := StoreRow(row);
      outcome := if stored then Dumped else OffsetTooLarge;
    }

    /** Link a row of a period with a slot into its chain and write it. Fails when the offset to be stored
        does not fit. */
    method StoreRow(row: Row) returns (ok: bool)
      requires Open() && 0 <= At(row) < |slots|
      modifies `slots, `recs, `fd
      ensures ok <==> old(fd) <= NA_INDEX
      ensures !ok ==> recs == old(recs) && slots == old(slots)
      ensures ok ==> Open() && fd == old(fd) + RECORD_SIZE && |slots| == |old(slots)|
      ensures ok ==> RowsOf(recs) == WriteAt(RowsOf(old(recs)), old(fd) / RECORD_SIZE, row)
      ensures ok && old(fd) == RECORD_SIZE * |old(recs)| && Forward(old(recs)) ==>
                (recs, slots) == AppendRow(old(recs), old(slots), firstYear, quarterly, row)
      ensures ok && old(fd) == RECORD_SIZE * |old(recs)|
              && ChainsMatch(old(recs), old(slots), old(firstYear), quarterly) ==>
                ChainsMatch(recs, slots, firstYear, quarterly)
    {
      if fd == RECORD_SIZE * |recs| && fd <= NA_INDEX && ChainsMatch(recs, slots, firstYear, quarterly) {
        AppendRowKeepsChains(recs, slots, firstYear, quarterly, row);
      }
      var offset := PeriodOffset(firstYear, row.period, quarterly);
      var curFd := fd;
      if slots[offset] == NA_INDEX {
        if curFd > NA_INDEX {
          return false;
        }
        slots := slots[offset := curFd];
      } else {
        var prevIndex := FindTail(offset);
        fd := prevIndex + RECORD_SIZE - INDEX_SIZE;
        if curFd > NA_INDEX {
          return false;
        }
        recs := recs[prevIndex / RECORD_SIZE := recs[prevIndex / RECORD_SIZE].(next := curFd)];
        fd := curFd;
      }
      WriteRecord(old(recs), Record(row, NA_INDEX));
      ok := true;
    }

    /** Write one record at the current position, over an old one or at the end. */
    method WriteRecord(ghost recs0: seq<Record>, rec: Record)
      requires fd % RECORD_SIZE == 0 && fd / RECORD_SIZE <= |recs| && rec.next == NA_INDEX
      requires Acyclic(recs0) && |recs0| == |recs|
      requires forall k :: 0 <= k < |recs| ==>
                 recs[k].row == recs0[k].row && (recs[k].next == recs0[k].next || recs[k].next == fd)
      modifies `recs, `fd
      ensures recs == if old(fd) / RECORD_SIZE < |old(recs)| then old(recs)[old(fd) / RECORD_SIZE := rec]
                      else old(recs) + [rec]
      ensures fd == old(fd) + RECORD_SIZE
      ensures Acyclic(recs)
      ensures RowsOf(recs) == WriteAt(RowsOf(recs0), old(fd) / RECORD_SIZE, rec.row)
    {
      var here := fd / RECORD_SIZE;
      recs := if here < |recs| then recs[here := rec] else recs + [rec];
      WriteKeepsAcyclic(recs0, recs, here);
      fd := fd + RECORD_SIZE;
    }

    /** The first i rows are written over the ones from before; if there were none, all chains are right. */
    ghost predicate Wrote(rows: seq<Row>, i: nat, before: seq<Row>)
      requires i <= |rows|
      reads `recs, `slots, `fd, `firstYear
    {
      && Open() && fd == RECORD_SIZE * i
      && BelowEnd(rows, firstYear, quarterly, |slots|)
      && OffsetsFit(i) && i <= LeadingFit(rows, firstYear, quarterly)
      && RowsOf(recs) == Overlay(before, rows[..i])
      && (before == [] ==> ChainsMatch(recs, slots, firstYear, quarterly))
    }

    method DumpNext(rows: seq<Row>, i: nat, ghost before: seq<Row>) returns (outcome: Outcome)
      requires i < |rows| && Wrote(rows, i, before)
      modifies `slots, `recs, `fd
      ensures outcome == Dumped ==> Wrote(rows, i + 1, before) && |slots| == |old(slots)|
      ensures outcome != Dumped ==>
                && outcome == RowsOutcome(rows, firstYear, quarterly) && recs == old(recs)
                && (outcome == BeforeFirstYear ==> i == LeadingFit(rows, firstYear, quarterly))
    {
      hide Linked, ChainsMatch, Overlay, Forward, AppendRow, PeriodOffset, BelowEnd, RowsOf, WriteAt, LeadingFit,
        RowsOutcome, OffsetsFit;
      OverlayStep(before, rows, i);
      RowStep(rows, firstYear, quarterly, |slots|, i);
      outcome := DumpRow(rows[i]);
    }

    /** The loop over the rows left to write. */
    method DumpRows(rows: seq<Row>) returns (outcome: Outcome)
      requires Open() && fd == 0
      requires BelowEnd(rows, firstYear, quarterly, |slots|)
      modifies this`slots, this`recs, this`fd
      ensures outcome == RowsOutcome(rows, firstYear, quarterly)
      ensures outcome == Dumped ==> Open() && |slots| == |old(slots)|
      ensures outcome == Dumped ==> RowsOf(recs) == Overlay(RowsOf(old(recs)), rows)
      ensures outcome == BeforeFirstYear ==>
                RowsOf(recs) == Overlay(RowsOf(old(recs)), rows[..LeadingFit(rows, firstYear, quarterly)])
      ensures outcome == Dumped && old(recs) == [] ==> ChainsMatch(recs, slots, firstYear, quarterly)
      ensures rows == [] ==> recs == old(recs) && slots == old(slots)
    {
      ghost var before := RowsOf(recs);
      EmptyStoreMatches(recs, slots, firstYear, quarterly);
      OverlayNone(before, rows);
      hide Linked, ChainsMatch, Overlay, Forward, AppendRow, PeriodOffset, BelowEnd, RowsOf, WriteAt, LeadingFit,
        RowsOutcome, OffsetsFit;
      NoRowsFit();
      for i := 0 to |rows|
        invariant Wrote(rows, i, before) && |slots| == |old(slots)|
        invariant i == 0 ==> recs == old(recs) && slots == old(slots)
      {
        outcome := DumpNext(rows, i, before);
        if outcome != Dumped {
          return;
        }
      }
      assert rows[..|rows|] == rows;
      AllRowsFit(rows, firstYear, quarterly);
      outcome := Dumped;
    }

    /** Read or rewrite the head of the index file and add the missing years; `present` when there are none. */
    method PrepareIndex(rows: seq<Row>, overwrite: bool) returns (present: bool)
      requires Valid() && rows != []
      requires forall i :: 0 <= i < |rows| ==> ValidPeriod(rows[i].period, quarterly)
      modifies this`indexExists, this`firstYear, this`slots
      ensures present <==>
                !overwrite && old(indexExists) &&
                old(firstYear) + YearsOfSlots(|old(slots)|, quarterly) > Year(MaxPeriod(rows), quarterly)
      ensures present ==> indexExists && slots == old(slots) && firstYear == old(firstYear)
      ensures !present ==>
                && indexExists && (quarterly ==> |slots| % 4 == 0)
                && BelowEnd(rows, firstYear, quarterly, |slots|)
                && (if !overwrite && old(indexExists)
                    then firstYear == old(firstYear) && Grown(old(slots), slots)
                    else LeadingFit(rows, firstYear, quarterly) == |rows|
                         && forall i :: 0 <= i < |slots| ==> slots[i] == NA_INDEX)
    {
      hide Year, MinPeriod, MaxPeriod, BelowEnd, LeadingFit, MissingSlots, Linked;
      PeriodYears(rows, quarterly);
      var startYear := Year(MinPeriod(rows), quarterly);
      var endYear := Year(MaxPeriod(rows), quarterly);
      if !overwrite && indexExists {
        startYear := firstYear + YearsOfSlots(|slots|, quarterly);
      } else {
        indexExists, firstYear, slots := true, startYear, [];
      }
      if startYear > endYear {
        return true;
      }
      AddYears(startYear, endYear);
      hide SlotsOfYears, YearsOfSlots, Grown;
      SlotsCoverRows(rows, firstYear, endYear, quarterly);
      present := false;
    }

    /** Add missing slots for each year of a range. */
    method AddYears(startYear: int, endYear: int)
      requires startYear <= endYear
      modifies `slots
      ensures slots == old(slots) + MissingSlots(SlotsOfYears(endYear - startYear + 1, quarterly))
    {
      ghost var base := slots;
      for year := startYear to endYear + 1
        invariant slots == base + MissingSlots(SlotsOfYears(year - startYear, quarterly))
      {
        if quarterly {
          slots := slots + [NA_INDEX, NA_INDEX, NA_INDEX, NA_INDEX];
        } else {
          slots := slots + [NA_INDEX];
        }
      }
    }

    /** Dump the publication-ordered rows of one field. */
    method DumpPit(rows: seq<Row>, overwrite: bool) returns (outcome: Outcome)
      requires Valid() && rows != []
      requires forall i :: 0 <= i < |rows| ==> ValidPeriod(rows[i].period, quarterly)
      modifies this
      ensures outcome == AlreadyPresent <==>
                !overwrite && old(indexExists) &&
                old(firstYear) + YearsOfSlots(|old(slots)|, quarterly) > Year(MaxPeriod(rows), quarterly)
      ensures outcome == AlreadyPresent ==>
                recs == old(recs) && slots == old(slots) && firstYear == old(firstYear)
      ensures outcome != AlreadyPresent ==>
                (outcome == EmptyDataFile <==> !overwrite && old(dataExists) && old(recs) == [])
      ensures outcome !in {AlreadyPresent, EmptyDataFile} ==>
                outcome == RowsOutcome(Written(rows, overwrite, old(recs)), firstYear, quarterly)
      ensures overwrite || !old(indexExists) ==> outcome != BeforeFirstYear
      // the data file after a dump
      ensures outcome == Dumped ==>
                Valid() && RowsOf(recs) == Overlay(if overwrite then [] else RowsOf(old(recs)),
                                                   Written(rows, overwrite, old(recs)))
      // a fresh or overwriting dump is right
      ensures outcome == Dumped && (overwrite || old(recs) == []) ==>
                ChainsMatch(recs, slots, firstYear, quarterly) && RowsOf(recs) == rows
      // a dump beside existing records is right exactly when it writes nothing
      ensures outcome == Dumped && !overwrite && old(recs) != []
              && ChainsMatch(old(recs), old(slots), old(firstYear), quarterly) ==>
                ((ChainsMatch(recs, slots, firstYear, quarterly)
                  && RowsOf(recs) == RowsOf(old(recs)) + Written(rows, overwrite, old(recs)))
                 <==> Written(rows, overwrite, old(recs)) == [])
    {
      hide Acyclic, BelowEnd, LeadingFit, MaxPeriod, YearsOfSlots, Year, OffsetsFit, RowsOutcome;
      var present := PrepareIndex(rows, overwrite);
      if present {
        return AlreadyPresent;
      }
      ghost var recs0, slots0, grown := recs, old(slots), slots;
      ghost var right0 := ChainsMatch(old(recs), old(slots), old(firstYear), quarterly);
      WrittenFits(rows, overwrite, recs, firstYear, quarterly, |slots|);
      LeadingAll(Written(rows, overwrite, recs), firstYear, quarterly);
      outcome := WriteData(rows, overwrite);
      if outcome == Dumped && !overwrite && recs0 != [] && right0 {
        DumpBesideRecords(recs0, slots0, grown, recs, slots, firstYear, quarterly, Written(rows, overwrite, recs0));
      }
    }

    /** Open the data file, drop the rows already covered by it, and write the others from its start. */
    method WriteData(rows: seq<Row>, overwrite: bool) returns (outcome: Outcome)
      requires Linked(recs, slots) && (!dataExists ==> recs == [])
      requires BelowEnd(rows, firstYear, quarterly, |slots|)
      requires overwrite ==> forall i :: 0 <= i < |slots| ==> slots[i] == NA_INDEX
      modifies `dataExists, `recs, `slots, `fd
      ensures outcome != AlreadyPresent
      ensures outcome == EmptyDataFile <==> !overwrite && old(dataExists) && old(recs) == []
      ensures outcome != EmptyDataFile ==>
                outcome == RowsOutcome(Written(rows, overwrite, old(recs)), firstYear, quarterly)
      ensures outcome == Dumped ==>
                && Linked(recs, slots) && dataExists && |slots| == |old(slots)|
                && RowsOf(recs) == Overlay(RowsOf(if overwrite then [] else old(recs)),
                                           Written(rows, overwrite, old(recs)))
                && (overwrite || old(recs) == [] ==> ChainsMatch(recs, slots, firstYear, quarterly))
                && (!overwrite && Written(rows, overwrite, old(recs)) == [] ==>
                      recs == old(recs) && slots == old(slots))
    {
      hide ChainsMatch, Acyclic, Overlay, BelowEnd, LeadingFit;
      WrittenFits(rows, overwrite, recs, firstYear, quarterly, |slots|);
      var toWrite, empty := OpenData(rows, overwrite);
      if empty {
        return EmptyDataFile;
      }
      if overwrite {
        EmptyIsLinked(slots);
      }
      outcome := DumpRows(toWrite);
    }

    /** Create, truncate or keep the data file and open it at its first byte. */
    method OpenData(rows: seq<Row>, overwrite: bool) returns (toWrite: seq<Row>, empty: bool)
      requires !dataExists ==> recs == []
      modifies `dataExists, `recs, `fd
      ensures empty <==> !overwrite && old(dataExists) && old(recs) == []
      ensures !empty ==>
                && dataExists && fd == 0
                && recs == (if overwrite then [] else old(recs))
                && toWrite == Written(rows, overwrite, old(recs))
    {
      toWrite, empty := rows, false;
      if !overwrite && dataExists {
        if recs == [] {
          empty := true;
          return;
        }
        toWrite := PublishedAfter(rows, recs[|recs| - 1].row.date);
      } else {
        dataExists := true;
        recs := if overwrite then [] else recs;
      }
      fd := 0;
    }
  }

  const INDEX_SIZE: nat := 4

  function WriteAt(rows: seq<Row>, pos: nat, row: Row): seq<Row>
    requires pos <= |rows|
  {
    if pos < |rows| then rows[pos := row] else rows + [row]
  }

  /** How writing rows one after the other ends: a period before the first year stops it where it comes
      up, and so does an offset that does not fit. */
  function RowsOutcome(rows: seq<Row>, firstYear: int, quarterly: bool): Outcome {
    var k := LeadingFit(rows, firstYear, quarterly);
    if !OffsetsFit(k) then OffsetTooLarge else if k < |rows| then BeforeFirstYear else Dumped
  }

  lemma {:induction false} NoRowsFit()
    ensures OffsetsFit(0)
  {
  }

  lemma {:induction false} AllRowsFit(rows: seq<Row>, firstYear: int, quarterly: bool)
    requires OffsetsFit(|rows|) && |rows| <= LeadingFit(rows, firstYear, quarterly)
    ensures RowsOutcome(rows, firstYear, quarterly) == Dumped
  {
  }

  /** How writing ends at row i, or that it goes on. */
  lemma {:induction false} RowStep(rows: seq<Row>, firstYear: int, quarterly: bool, n: nat, i: nat)
    requires BelowEnd(rows, firstYear, quarterly, n) && i < |rows|
    requires OffsetsFit(i) && i <= LeadingFit(rows, firstYear, quarterly)
    ensures var offset := PeriodOffset(firstYear, rows[i].period, quarterly);
            && offset < n
            && (offset < 0 ==> RowsOutcome(rows, firstYear, quarterly) == BeforeFirstYear
                               && i == LeadingFit(rows, firstYear, quarterly))
            && (0 <= offset && RECORD_SIZE * i > NA_INDEX ==>
                  RowsOutcome(rows, firstYear, quarterly) == OffsetTooLarge)
            && (0 <= offset && RECORD_SIZE * i <= NA_INDEX ==>
                  i + 1 <= LeadingFit(rows, firstYear, quarterly) && OffsetsFit(i + 1))
  {
    hide PeriodOffset, LeadingFit;
  }

  lemma {:induction false} LeadingAll(rows: seq<Row>, firstYear: int, quarterly: bool)
    ensures LeadingFit(rows, firstYear, quarterly) == |rows| ==>
              RowsOutcome(rows, firstYear, quarterly) != BeforeFirstYear
  {
  }

  /** The rows a dump writes: all of them, or only those newer than the last stored record. */
  function Written(rows: seq<Row>, overwrite: bool, recs: seq<Record>): seq<Row> {
    if !overwrite && recs != [] then PublishedAfter(rows, recs[|recs| - 1].row.date) else rows
  }

  lemma {:induction false} WrittenFits(
    rows: seq<Row>, overwrite: bool, recs: seq<Record>, firstYear: int, quarterly: bool, n: nat)
    requires BelowEnd(rows, firstYear, quarterly, n)
    ensures var written := Written(rows, overwrite, recs);
            && BelowEnd(written, firstYear, quarterly, n)
            && (LeadingFit(rows, firstYear, quarterly) == |rows| ==>
                  LeadingFit(written, firstYear, quarterly) == |written|)
  {
    hide LeadingFit, PublishedAfter, PeriodOffset;
    if recs != [] {
      PublishedAfterWithin(rows, recs[|recs| - 1].row.date);
      var written := Written(rows, overwrite, recs);
      assert forall i :: 0 <= i < |written| ==> written[i] in written && written[i] in rows;
    }
    if recs != [] {
      PublishedAfterFits(rows, recs[|recs| - 1].row.date, firstYear, quarterly, n);
    }
  }

  lemma {:induction false} OverlayNone(base: seq<Row>, rows: seq<Row>)
    ensures rows[..0] == [] && Overlay(base, []) == base
  {
  }

  lemma {:induction false} OverlayStep(base: seq<Row>, rows: seq<Row>, i: nat)
    requires i < |rows|
    ensures |Overlay(base, rows[..i])| == (if i <= |base| then |base| else i)
    ensures WriteAt(Overlay(base, rows[..i]), i, rows[i]) == Overlay(base, rows[..i + 1])
  {
  }
}
