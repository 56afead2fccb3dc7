/** The on-disk cache of one expression (DiskExpressionCache in quant_master/data/cache.py): a
    binary file holding a start index and values, brought up to date by truncating and appending. */
module ExpressionCache {
  import opened Common
  import opened Search
  import opened Calendars
  import opened Expressions

  /** The binary file: the header gives the calendar index of the first value. */
  datatype BinFile = BinFile(start: int, values: seq<Cell>)

  /** What gen_expression_cache writes for a non-empty series. */
  function Gen(s: Series): BinFile {
    BinFile(s.start, s.values)
  }

  /** What read_bin returns for a range of calendar indices; reading past the end gives fewer values. */
  function ReadBin(file: BinFile, startIndex: int, endIndex: int): Series {
    var si := MaxInt(file.start, startIndex);
    if si > endIndex then EmptySeries
    else
      var offset := si - file.start;
      var stop := MinInt(|file.values|, offset + (endIndex - si + 1));
      if offset >= stop then EmptySeries else Series(si, file.values[offset..stop])
  }

  /** The cache of a whole calendar of n points, generated from scratch. */
  function Regenerate(e: Expr, leaf: Leaf, stored: Stored, n: nat): BinFile
    requires WellFormed(e)
  {
    Gen(Expression(e, leaf, stored, 0, n - 1))
  }

  /** Regenerating on a calendar that contains all stored data evaluates on all stored data, whatever the
      operators declare. */
  lemma {:induction false} RegenerateIsWhole(e: Expr, leaf: Leaf, stored: Stored, n: nat)
    requires WellFormed(e) && stored.first < stored.stop <= n
    ensures Regenerate(e, leaf, stored, n) ==
            BinFile(stored.first, EvalRange(e, leaf, stored.first, stored.stop - 1, stored.first, stored.stop - 1))
  {
    hide Expression, Loc, Eval, EvalRange, ExtendedWindow;
    ExpressionIsLoaded(e, leaf, stored, 0, n - 1);
  }

  /** Reading the file is cutting the series it holds. */
  lemma {:induction false} ReadBinIsLoc(file: BinFile, startIndex: int, endIndex: int)
    ensures ReadBin(file, startIndex, endIndex) == Loc(Series(file.start, file.values), startIndex, endIndex)
  {
    hide Loc;
    LocIsSliced(Series(file.start, file.values), startIndex, endIndex);
    var si := MaxInt(file.start, startIndex);
    var offset := si - file.start;
    assert si <= endIndex ==>
             MinInt(|file.values|, offset + (endIndex - si + 1)) ==
             MinInt(file.start + |file.values| - 1, endIndex) + 1 - file.start;
  }

  /** A cache hit is the evaluation on all stored data, cut to the range. */
  lemma {:induction false} HitIsWhole(
    e: Expr, leaf: Leaf, stored: Stored, n: nat, startIndex: int, endIndex: int)
    requires WellFormed(e) && stored.first < stored.stop <= n
    ensures ReadBin(Regenerate(e, leaf, stored, n), startIndex, endIndex) ==
            Loc(Whole(e, leaf, stored), startIndex, endIndex)
  {
    hide Expression, Loc, ReadBin, Eval, EvalRange, ExtendedWindow;
    ReadBinIsLoc(Regenerate(e, leaf, stored, n), startIndex, endIndex);
    RegenerateIsWhole(e, leaf, stored, n);
  }

  /** For a local expression a cache hit returns what the provider would have computed for the range. */
  lemma {:induction false} HitIsProvider(
    e: Expr, leaf: Leaf, stored: Stored, n: nat, startIndex: int, endIndex: int)
    requires WellFormed(e) && Local(e) && stored.first < stored.stop <= n && 0 <= startIndex <= endIndex
    ensures ReadBin(Regenerate(e, leaf, stored, n), startIndex, endIndex) ==
            Expression(e, leaf, stored, startIndex, endIndex)
  {
    hide *;
    HitIsWhole(e, leaf, stored, n, startIndex, endIndex);
    WindowedIsWhole(e, leaf, stored, startIndex, endIndex);
  }

  /** For a difference it does so exactly when the range asked for covers it. */
  lemma {:induction false} DeltaHitExactly(
    e: Expr, period: int, leaf: Leaf, stored: Stored, n: nat, startIndex: int, endIndex: int)
    requires Pointwise(e) && period != 0 && stored.first < stored.stop <= n && 0 <= startIndex <= endIndex
    ensures ReadBin(Regenerate(Delta(e, period), leaf, stored, n), startIndex, endIndex) ==
            Expression(Delta(e, period), leaf, stored, startIndex, endIndex)
            <==> DeltaCovered(e, period, leaf, stored, startIndex, endIndex)
  {
    hide Expression, Loc, ReadBin, EvalRange, ExtendedWindow, Regenerate, Whole, DeltaCovered, Local;
    HitIsWhole(Delta(e, period), leaf, stored, n, startIndex, endIndex);
    DeltaWindowedExactly(e, period, leaf, stored, startIndex, endIndex);
  }

  // ----- update -----

  /** The file after an update from a calendar of n points to one of n' points. */
  function Updated(file: BinFile, e: Expr, leaf: Leaf, stored': Stored, n: nat, n': nat): BinFile
    requires WellFormed(e)
  {
    var removeN := MinInt(ExtendedWindow(e).1, |file.values|);
    var data := Expression(e, leaf, stored', n - removeN, n' - 1);
    BinFile(file.start, file.values[..|file.values| - removeN] + data.values)
  }

  /** The instrument's files after new data has arrived: nothing moves, the end may grow. */
  predicate Grown(stored: Stored, stored': Stored) {
    stored.first == stored'.first && stored.stop <= stored'.stop
  }

  /** The recomputed tail starts at the old calendar end less the removed values, and is evaluated on what
      is loaded for it. */
  lemma {:induction false} UpdatedTail(e: Expr, leaf: Leaf, stored: Stored, stored': Stored, n: nat, n': nat)
    requires WellFormed(e) && stored.first < stored.stop <= n < n' && stored'.stop <= n' && Grown(stored, stored')
    ensures var a, b' := stored.first, stored'.stop;
            var from := n - MinInt(ExtendedWindow(e).1, stored.stop - a);
            var lo := MaxInt(a, from - ExtendedWindow(e).0);
            var data := Expression(e, leaf, stored', from, n' - 1);
            && a <= from && data == SeriesOn(e, leaf, lo, b' - 1, from, b' - 1)
            && |data.values| == if from < b' then b' - from else 0
  {
    hide Expression, Loc, Eval, EvalRange, ExtendedWindow;
    ExpressionIsLoaded(e, leaf, stored', n - MinInt(ExtendedWindow(e).1, stored.stop - stored.first), n' - 1);
  }

  /** Cached values far enough from the old end do not change when data is added. */
  lemma {:induction false} KeptValuesStable(e: Expr, leaf: Leaf, stored: Stored, stored': Stored, m: int)
    requires WellFormed(e) && Local(e) && stored.first < stored.stop && Grown(stored, stored')
    requires stored.first <= m && m + ExtendedWindow(e).1 <= stored.stop
    ensures EvalRange(e, leaf, stored.first, stored.stop - 1, stored.first, m - 1) ==
            EvalRange(e, leaf, stored.first, stored'.stop - 1, stored.first, m - 1)
  {
    hide Eval, EvalRange, ExtendedWindow, Local;
    EvalRangeLocal(e, leaf, stored.first, stored.stop - 1, stored.first, stored'.stop - 1, stored.first, m - 1);
  }

  /** The recomputed tail of a local expression has the values of all stored data. */
  lemma {:induction false} TailIsWhole(e: Expr, leaf: Leaf, first: int, last: int, from: int)
    requires WellFormed(e) && Local(e) && first <= from
    ensures var lo := MaxInt(first, from - ExtendedWindow(e).0);
            EvalRange(e, leaf, lo, last, from, last) == EvalRange(e, leaf, first, last, from, last)
  {
    hide Eval, EvalRange, ExtendedWindow, Local;
    EvalRangeLocal(e, leaf, MaxInt(first, from - ExtendedWindow(e).0), last, first, last, from, last);
  }

  /** For a live instrument the updated file is the kept values, then the recomputed tail. */
  lemma {:induction false} LiveParts(e: Expr, leaf: Leaf, stored: Stored, stored': Stored, n: nat, n': nat)
    requires WellFormed(e) && stored.first < stored.stop == n < n' && stored'.stop <= n' && Grown(stored, stored')
    ensures var m := n - MinInt(ExtendedWindow(e).1, n - stored.first);
            var lo := MaxInt(stored.first, m - ExtendedWindow(e).0);
            Updated(Regenerate(e, leaf, stored, n), e, leaf, stored', n, n') ==
            BinFile(stored.first, EvalRange(e, leaf, stored.first, n - 1, stored.first, m - 1)
                                  + EvalRange(e, leaf, lo, stored'.stop - 1, m, stored'.stop - 1))
  {
    hide Expression, Eval, EvalRange, ExtendedWindow, Regenerate, WellFormed;
    var a := stored.first;
    RegenerateIsWhole(e, leaf, stored, n);
    UpdatedTail(e, leaf, stored, stored', n, n');
    var removeN := MinInt(ExtendedWindow(e).1, n - a);
    var m := n - removeN;
    var before := EvalRange(e, leaf, a, n - 1, a, n - 1);
    assert before[..|before| - removeN] == before[0..m - a];
    EvalRangeSlice(e, leaf, a, n - 1, a, n - 1, a, m - 1);
  }

  /** For a live instrument, whose cached series reaches the old end of the calendar, the update is
      regeneration exactly when no kept value changes and the recomputed tail has the values of all stored
      data. */
  lemma {:induction false} LiveUpdate(e: Expr, leaf: Leaf, stored: Stored, stored': Stored, n: nat, n': nat)
    requires WellFormed(e) && stored.first < stored.stop == n < n' && stored'.stop <= n' && Grown(stored, stored')
    ensures var m := n - MinInt(ExtendedWindow(e).1, n - stored.first);
            var lo := MaxInt(stored.first, m - ExtendedWindow(e).0);
            Updated(Regenerate(e, leaf, stored, n), e, leaf, stored', n, n') == Regenerate(e, leaf, stored', n')
            <==> && EvalRange(e, leaf, stored.first, n - 1, stored.first, m - 1) ==
                    EvalRange(e, leaf, stored.first, stored'.stop - 1, stored.first, m - 1)
                 && EvalRange(e, leaf, lo, stored'.stop - 1, m, stored'.stop - 1) ==
                    EvalRange(e, leaf, stored.first, stored'.stop - 1, m, stored'.stop - 1)
  {
    hide Expression, Eval, EvalRange, ExtendedWindow, Regenerate, Updated, WellFormed;
    var a, b' := stored.first, stored'.stop;
    var m := n - MinInt(ExtendedWindow(e).1, n - a);
    var lo := MaxInt(a, m - ExtendedWindow(e).0);
    LiveParts(e, leaf, stored, stored', n, n');
    RegenerateIsWhole(e, leaf, stored', n');
    EvalRangeConcat(e, leaf, a, b' - 1, a, m, b' - 1);
    SamePartsExactly(EvalRange(e, leaf, a, n - 1, a, m - 1), EvalRange(e, leaf, lo, b' - 1, m, b' - 1),
                     EvalRange(e, leaf, a, b' - 1, a, m - 1), EvalRange(e, leaf, a, b' - 1, m, b' - 1));
  }

  lemma {:induction false} SamePartsExactly(x: seq<Cell>, y: seq<Cell>, x': seq<Cell>, y': seq<Cell>)
    requires |x| == |x'|
    ensures x + y == x' + y' <==> x == x' && y == y'
  {
    if x + y == x' + y' {
      assert x == (x + y)[..|x|] && x' == (x' + y')[..|x|];
      assert y == (x + y)[|x|..] && y' == (x' + y')[|x|..];
    }
  }

  /** The update of a local expression meets regeneration when the cached series reaches the old end of the
      calendar. */
  lemma {:induction false} UpdateOfLiveSeries(
    e: Expr, leaf: Leaf, stored: Stored, stored': Stored, n: nat, n': nat)
    requires WellFormed(e) && Local(e)
    requires stored.first < stored.stop == n < n' && stored'.stop <= n' && Grown(stored, stored')
    ensures Updated(Regenerate(e, leaf, stored, n), e, leaf, stored', n, n') == Regenerate(e, leaf, stored', n')
  {
    hide Expression, Eval, EvalRange, ExtendedWindow, Updated, Regenerate, Local;
    var m := n - MinInt(ExtendedWindow(e).1, n - stored.first);
    if m == stored.first {
      NothingBefore(e, leaf, stored.first, n - 1, stored'.stop - 1);
    } else {
      KeptValuesStable(e, leaf, stored, stored', m);
    }
    TailIsWhole(e, leaf, stored.first, stored'.stop - 1, m);
    LiveUpdate(e, leaf, stored, stored', n, n');
  }

  lemma {:induction false} NothingBefore(e: Expr, leaf: Leaf, first: int, last: int, last': int)
    requires WellFormed(e) && first - 1 <= last && first - 1 <= last'
    ensures EvalRange(e, leaf, first, last, first, first - 1) == EvalRange(e, leaf, first, last', first, first - 1)
  {
  }

  /** Whatever the expression, an update can only be regeneration when the cached series reaches the old end
      of the calendar, or nothing has to be recomputed: the expression looks at no future value and the
      instrument has no new data. */
  lemma {:induction false} UpdateNeedsLiveSeries(
    e: Expr, leaf: Leaf, stored: Stored, stored': Stored, n: nat, n': nat)
    requires WellFormed(e) && stored.first < stored.stop < n < n' && stored'.stop <= n' && Grown(stored, stored')
    ensures Updated(Regenerate(e, leaf, stored, n), e, leaf, stored', n, n') == Regenerate(e, leaf, stored', n')
            <==> ExtendedWindow(e).1 == 0 && stored'.stop == stored.stop
  {
    hide Expression, Eval, EvalRange, ExtendedWindow;
    RegenerateIsWhole(e, leaf, stored, n);
    RegenerateIsWhole(e, leaf, stored', n');
    UpdatedTail(e, leaf, stored, stored', n, n');
    var file := Regenerate(e, leaf, stored, n);
    if ExtendedWindow(e).1 == 0 && stored'.stop == stored.stop {
      assert file.values[..|file.values|] + [] == file.values;
    } else {
      assert |Updated(file, e, leaf, stored', n, n').values| != |Regenerate(e, leaf, stored', n').values|;
    }
  }

  /** For a local expression the update equals regeneration on the longer calendar exactly then. */
  lemma {:induction false} UpdateExact(e: Expr, leaf: Leaf, stored: Stored, stored': Stored, n: nat, n': nat)
    requires WellFormed(e) && Local(e)
    requires stored.first < stored.stop <= n < n' && stored'.stop <= n' && Grown(stored, stored')
    ensures Updated(Regenerate(e, leaf, stored, n), e, leaf, stored', n, n') == Regenerate(e, leaf, stored', n')
            <==> stored.stop == n || (ExtendedWindow(e).1 == 0 && stored'.stop == stored.stop)
  {
    hide ExtendedWindow, Local, Regenerate, Updated;
    if stored.stop == n {
      UpdateOfLiveSeries(e, leaf, stored, stored', n, n');
    } else {
      UpdateNeedsLiveSeries(e, leaf, stored, stored', n, n');
    }
  }

  /** Without later values in the window nothing is removed, and nothing kept can change. */
  lemma {:induction false} PastOnlyStable(
    agg: seq<Cell> -> Cell, name: string, size: int, leaf: Leaf, first: int, last: int, last': int)
    requires size >= 1 && first <= last <= last'
    ensures var e := Loaded(agg, Feature(name), size);
            && ExtendedWindow(e) == (size - 1, 0)
            && EvalRange(e, leaf, first, last, first, last) == EvalRange(e, leaf, first, last', first, last)
  {
    var e, f := Loaded(agg, Feature(name), size), Feature(name);
    forall i | first <= i <= last
      ensures Eval(e, leaf, first, last, i) == Eval(e, leaf, first, last', i)
    {
      assert EvalRange(f, leaf, first, last, first, i) == EvalRange(f, leaf, first, last', first, i);
    }
  }

  /** What a difference needs of an update. To an earlier period: there is no new data, or the first new
      value has no stored earlier period, or there is no difference to it. To a later period: there is no
      difference wherever the later period is new. */
  predicate DeltaSettled(e: Expr, period: int, leaf: Leaf, stored: Stored, stored': Stored)
    requires WellFormed(e)
  {
    var n := stored.stop;
    if period >= 1 then
      stored'.stop == n || n - period < stored.first || NoDifference(e, period, leaf, n)
    else
      forall i :: stored.first <= i < n && n <= i - period < stored'.stop ==> NoDifference(e, period, leaf, i)
  }

  /** The update of a live difference is regeneration exactly then. */
  lemma {:induction false} DeltaUpdateExactly(
    e: Expr, period: int, leaf: Leaf, stored: Stored, stored': Stored, n: nat, n': nat)
    requires Pointwise(e) && period != 0
    requires stored.first < stored.stop == n < n' && stored'.stop <= n' && Grown(stored, stored')
    ensures var d := Delta(e, period);
            Updated(Regenerate(d, leaf, stored, n), d, leaf, stored', n, n') == Regenerate(d, leaf, stored', n')
            <==> DeltaSettled(e, period, leaf, stored, stored')
  {
    hide Eval, EvalRange, ExtendedWindow, Updated, Regenerate, Local, NoDifference;
    var d, first, last := Delta(e, period), stored.first, stored'.stop - 1;
    var lo := MaxInt(first, n - BackWindow(period));
    DeltaWindow(e, period);
    LiveUpdate(d, leaf, stored, stored', n, n');
    DeltaRanges(e, period, leaf, first, n - 1, first, last, first, n - 1);
    DeltaRanges(e, period, leaf, lo, last, first, last, n, last);
    NewLeftOutExactly(period, first, n - 1, n, last, lo);
  }

  /** Which differences an update leaves without their other period. */
  lemma {:induction false} NewLeftOutExactly(period: int, first: int, end: int, n: int, last: int, lo: int)
    requires period != 0 && first <= end == n - 1 <= last && lo == MaxInt(first, n - BackWindow(period))
    ensures forall i :: first <= i < n ==>
              (LeftOut(period, first, end, first, last, i) <==> period < 0 && n <= i - period <= last)
    ensures forall i :: n <= i <= last ==>
              (LeftOut(period, lo, last, first, last, i) <==> period >= 1 && i == n && first <= n - period)
  {
    forall i | n <= i <= last
      ensures LeftOut(period, lo, last, first, last, i) <==> period >= 1 && i == n && first <= n - period
    {
      assert first <= i - period < lo <==> period >= 1 && i == n && first <= n - period;
    }
  }

  /** Every update of every live instrument is regeneration. */
  ghost predicate UpdatesRegenerate(e: Expr)
    requires WellFormed(e)
  {
    forall leaf: Leaf, stored: Stored, stored': Stored, n: nat, n': nat ::
      stored.first < stored.stop == n < n' && stored'.stop <= n' && Grown(stored, stored') ==>
        Updated(Regenerate(e, leaf, stored, n), e, leaf, stored', n, n') == Regenerate(e, leaf, stored', n')
  }

  lemma {:induction false} LocalUpdatesRegenerate(e: Expr)
    requires WellFormed(e) && Local(e)
    ensures UpdatesRegenerate(e)
  {
    hide Local, Regenerate, Updated;
    forall leaf: Leaf, stored: Stored, stored': Stored, n: nat, n': nat |
      stored.first < stored.stop == n < n' && stored'.stop <= n' && Grown(stored, stored')
      ensures Updated(Regenerate(e, leaf, stored, n), e, leaf, stored', n, n') == Regenerate(e, leaf, stored', n')
    {
      UpdateOfLiveSeries(e, leaf, stored, stored', n, n');
    }
  }

  /** An aggregate of everything loaded of a feature is updated to its regeneration, for every live instrument and all
      data, exactly when it only looks at the window it declares. */
  lemma {:induction false} LoadedUpdatesExactly(agg: seq<Cell> -> Cell, name: string, size: int)
    requires size >= 1
    ensures UpdatesRegenerate(Loaded(agg, Feature(name), size)) <==> Windowed(agg, size)
  {
    hide UpdatesRegenerate, Local;
    if Windowed(agg, size) {
      LoadedIsLocal(agg, name, size);
      LocalUpdatesRegenerate(Loaded(agg, Feature(name), size));
    } else {
      var s: seq<Cell> :| |s| > size && agg(s) != agg(s[|s| - size..]);
      LoadedUpdateFails(agg, name, size, s);
    }
  }

  lemma {:induction false} LoadedUpdateFails(agg: seq<Cell> -> Cell, name: string, size: int, s: seq<Cell>)
    requires size >= 1 && |s| > size && agg(s) != agg(s[|s| - size..])
    ensures !UpdatesRegenerate(Loaded(agg, Feature(name), size))
  {
    hide Updated, Regenerate;
    StaleWindow(agg, name, size, s);
    var n := |s| - 1;
    assert Grown(Stored(0, n), Stored(0, n + 1));
  }

  lemma {:induction false} StaleWindow(agg: seq<Cell> -> Cell, name: string, size: int, s: seq<Cell>)
    requires size >= 1 && |s| > size && agg(s) != agg(s[|s| - size..])
    ensures var e, n := Loaded(agg, Feature(name), size), |s| - 1;
            Updated(Regenerate(e, LeafOf(s), Stored(0, n), n), e, LeafOf(s), Stored(0, n + 1), n, n + 1) !=
            Regenerate(e, LeafOf(s), Stored(0, n + 1), n + 1)
  {
    hide Eval, EvalRange, ExtendedWindow, Updated, Regenerate;
    var e, n := Loaded(agg, Feature(name), size), |s| - 1;
    PastOnlyStable(agg, name, size, LeafOf(s), 0, n - 1, n);
    LiveUpdate(e, LeafOf(s), Stored(0, n), Stored(0, n + 1), n, n + 1);
    LoadedOfLeaf(agg, name, size, s, 0);
    LoadedOfLeaf(agg, name, size, s, n - size + 1);
    assert s[0..] == s;
    assert EvalRange(e, LeafOf(s), n - size + 1, n, n, n)[0] != EvalRange(e, LeafOf(s), 0, n, n, n)[0];
  }

  /** So an exponentially weighted mean, of whatever span from 2 on, is not updated to its regeneration for
      some live instrument, although it is at the end of the calendar. */
  lemma {:induction false} WeightedMeanUpdateFails(decay: real, name: string, span: int)
    requires 0.0 < decay < 1.0 && span >= 1
    ensures !UpdatesRegenerate(Loaded(WeightedMean(decay), Feature(name), span))
  {
    hide UpdatesRegenerate, Windowed, WeightedMean;
    WeightedMeanNotWindowed(decay, span);
    LoadedUpdatesExactly(WeightedMean(decay), name, span);
  }

  /** Successive calendar lengths of a live instrument. */
  predicate Increasing(ns: seq<nat>) {
    forall i, j :: 0 <= i < j < |ns| ==> ns[i] < ns[j]
  }

  /** The file after generating at the first calendar length and updating at each later one. */
  function AfterUpdates(e: Expr, leaf: Leaf, first: nat, ns: seq<nat>): BinFile
    requires WellFormed(e) && ns != []
  {
    var n := ns[|ns| - 1];
    if |ns| == 1 then Regenerate(e, leaf, Stored(first, n), n)
    else Updated(AfterUpdates(e, leaf, first, ns[..|ns| - 1]), e, leaf, Stored(first, n), ns[|ns| - 2], n)
  }

  /** Over any sequence of updates of a live instrument the file stays what regeneration would write. */
  lemma {:induction false} UpdatesKeepRegenerated(e: Expr, leaf: Leaf, first: nat, ns: seq<nat>)
    requires WellFormed(e) && Local(e) && ns != [] && Increasing(ns) && first < ns[0]
    ensures AfterUpdates(e, leaf, first, ns) ==
            Regenerate(e, leaf, Stored(first, ns[|ns| - 1]), ns[|ns| - 1])
  {
    if |ns| > 1 {
      UpdatesKeepRegenerated(e, leaf, first, ns[..|ns| - 1]);
      UpdateOfLiveSeries(e, leaf, Stored(first, ns[|ns| - 2]), Stored(first, ns[|ns| - 1]), ns[|ns| - 2], ns[|ns| - 1]);
    }
  }

  datatype QueryError =
    | FutureRange      // the range starts after the last calendar point
    | InvertedRange    // a range whose first index is above its last one is asked of the provider

  /** One cache entry on disk with its meta data. */
  class DiskExpressionCache {
    const expr: Expr
    var present: bool
    var file: BinFile
    var lastUpdate: int

    constructor (expr: Expr)
      ensures this.expr == expr && !present
    {
      this.expr := expr;
      present, file, lastUpdate := false, BinFile(0, []), 0;
    }

    /** Answer a query: read the file, or generate it from the provider first. A raw feature is asked of the
        provider and not cached. */
    method Query(cal: seq<int>, leaf: Leaf, stored: Stored, start: int, end: int)
      returns (result: Result<Series, QueryError>)
      requires WellFormed(expr) && StrictlySorted(cal) && cal != []
      modifies `present, `file, `lastUpdate
      ensures result.Err? ==> present == old(present) && file == old(file) && lastUpdate == old(lastUpdate)
      ensures match LocateIndex(cal, start, end)
              case Err(_) => result == Err(FutureRange)
              case Ok((lo, hi)) =>
                if old(present) then
                  && present && file == old(file) && lastUpdate == old(lastUpdate)
                  && result == Ok(ReadBin(file, lo, hi))
                else if expr.Feature? then
                  && !present
                  && result == if lo > hi then Err(InvertedRange) else Ok(Expression(expr, leaf, stored, lo, hi))
                else
                  var whole := Expression(expr, leaf, stored, 0, |cal| - 1);
                  && result == Ok(Loc(whole, lo, hi)) && present == (whole.values != [])
                  && (present ==> file == Regenerate(expr, leaf, stored, |cal|) && lastUpdate == cal[|cal| - 1])
    {
      hide Expression, Loc, ReadBin, StrictlySorted;
      var located := LocateIndex(cal, start, end);
      if located.Err? {
        return Err(FutureRange);
      }
      var (startIndex, endIndex) := located.value;
      if present {
        return Ok(ReadBin(file, startIndex, endIndex));
      }
      if expr.Feature? {
        if startIndex > endIndex {
          return Err(InvertedRange);
        }
        return Ok(Expression(expr, leaf, stored, startIndex, endIndex));
      }
      var series := Expression(expr, leaf, stored, 0, |cal| - 1);
      if series.values != [] {
        present, file, lastUpdate := true, Gen(series), cal[|cal| - 1];
      }
      result := Ok(Loc(series, startIndex, endIndex));
    }

    /** Bring the file up to the newest calendar. Returns 0 (updated), 1 (no need) or 2 (missing). */
    method Update(cal: seq<int>, leaf: Leaf, stored: Stored) returns (code: nat)
      requires WellFormed(expr) && StrictlySorted(cal) && cal != []
      requires present ==> lastUpdate in cal && |file.values| <= IndexOf(cal, lastUpdate) + 1
      modifies `present, `file, `lastUpdate
      ensures code == 2 <==> !old(present)
      ensures code == 1 <==> old(present) && old(lastUpdate) == cal[|cal| - 1]
      ensures code != 0 ==> file == old(file) && lastUpdate == old(lastUpdate) && present == old(present)
      ensures code == 0 ==>
                && present && lastUpdate == cal[|cal| - 1]
                && file == Updated(old(file), expr, leaf, stored, IndexOf(cal, old(lastUpdate)) + 1, |cal|)
    {
      hide Expression, Calendar, LocateIndex, StrictlySorted, ExtendedWindow;
      if !present {
        return 2;
      }
      ghost var last := IndexOf(cal, lastUpdate);
      NewCalendar(cal, last);
      var newCalendar := Calendar(cal, Some(lastUpdate), None);
      if |newCalendar| <= 1 {
        return 1;
      }
      var currentIndex := |cal| - |newCalendar| + 1;
      var eleN := |file.values|;
      var (lftEtd, rghtEtd) := ExtendedWindow(expr);
      var removeN := MinInt(rghtEtd, eleN);
      assert newCalendar[1] == cal[currentIndex];
      LocateCalendarPoint(cal, currentIndex - removeN, |cal| - 1);
      var located := LocateIndex(cal, cal[currentIndex - removeN], newCalendar[|newCalendar| - 1]);
      var data := Expression(expr, leaf, stored, located.value.0, located.value.1);
      file := BinFile(file.start, file.values[..eleN - removeN] + data.values);
      lastUpdate := newCalendar[|newCalendar| - 1];
      code := 0;
    }
  }
}
