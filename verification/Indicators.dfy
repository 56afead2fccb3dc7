/** Order indicators (Indicator in quant_master/backtest/report.py): what each step dealt of each stock,
    and how the indicators of inner steps are aggregated into those of the outer one. */
module Indicators {
  import opened Common
  import opened RealArith

  /** One executed order; the price is missing when the order could not be traded. */
  datatype Fill = Fill(stock: string, dir: Direction, amount: real, dealAmount: real, val: real, fee: real, price: Cell)

  type Column = map<string, Cell>

  /** The metrics of a step, each by stock. */
  datatype Metrics = Metrics(innerAmount: Column, dealAmount: Column, tradePrice: Column,
                             tradeValue: Column, tradeCost: Column, tradeDir: Column)

  /** The metrics that are summed over inner steps; Traded stands for price times amount. */
  datatype Metric = InnerAmount | DealAmount | Traded | TradeValue | TradeCost | TradeDir

  predicate SameStocks(x: Metrics) {
    x.innerAmount.Keys == x.dealAmount.Keys == x.tradePrice.Keys == x.tradeValue.Keys
    == x.tradeCost.Keys == x.tradeDir.Keys
  }

  // ----- one step -----

  function Sign(dir: Direction): real {
    if dir == BUY then 1.0 else -1.0
  }

  function Times(a: Cell, b: Cell): Cell {
    if a.Num? && b.Num? then Num(a.v * b.v) else NaN
  }

  function Entry(f: Fill, m: Metric): Cell {
    match m
    case InnerAmount => Num(f.amount * Sign(f.dir))
    case DealAmount => Num(f.dealAmount * Sign(f.dir))
    case Traded => Times(Num(f.dealAmount * Sign(f.dir)), f.price)
    case TradeValue => Num(f.val * Sign(f.dir))
    case TradeCost => Num(f.fee)
    case TradeDir => Num(if f.dir == BUY then 1.0 else 0.0)
  }

  function Put(x: Metrics, f: Fill): Metrics {
    var k := f.stock;
    Metrics(x.innerAmount[k := Entry(f, InnerAmount)], x.dealAmount[k := Entry(f, DealAmount)],
            x.tradePrice[k := f.price], x.tradeValue[k := Entry(f, TradeValue)],
            x.tradeCost[k := Entry(f, TradeCost)], x.tradeDir[k := Entry(f, TradeDir)])
  }

  const NOTHING := Metrics(map[], map[], map[], map[], map[], map[])

  /** The metrics of a lowest-level step: a later order of a stock replaces an earlier one. */
  function StepMetrics(fills: seq<Fill>): (x: Metrics)
    ensures SameStocks(x)
  {
    if fills == [] then NOTHING else Put(StepMetrics(fills[..|fills| - 1]), fills[|fills| - 1])
  }

  // ----- aggregation -----

  /** Price times amount, by stock. */
  function TradedColumn(x: Metrics): Column {
    map k | k in x.dealAmount && k in x.tradePrice :: Times(x.dealAmount[k], x.tradePrice[k])
  }

  function ColumnOf(x: Metrics, m: Metric): Column {
    match m
    case InnerAmount => x.innerAmount
    case DealAmount => x.dealAmount
    case Traded => TradedColumn(x)
    case TradeValue => x.tradeValue
    case TradeCost => x.tradeCost
    case TradeDir => x.tradeDir
  }

  /** A missing entry or a missing value counts as zero. */
  function At(c: Column, k: string): real {
    if k in c && c[k].Num? then c[k].v else 0.0
  }

  function SumAt(columns: seq<Column>, k: string): real {
    if columns == [] then 0.0 else SumAt(columns[..|columns| - 1], k) + At(columns[|columns| - 1], k)
  }

  function Columns(xs: seq<Metrics>, m: Metric): (cs: seq<Column>)
    ensures |cs| == |xs| && forall i :: 0 <= i < |xs| ==> cs[i] == ColumnOf(xs[i], m)
  {
    seq(|xs|, i requires 0 <= i < |xs| => ColumnOf(xs[i], m))
  }

  function StocksOf(xs: seq<Metrics>): set<string> {
    set i, k | 0 <= i < |xs| && k in xs[i].innerAmount :: k
  }

  function SumColumn(xs: seq<Metrics>, m: Metric): (c: Column)
    ensures c.Keys == StocksOf(xs)
  {
    map k | k in StocksOf(xs) :: Num(SumAt(Columns(xs, m), k))
  }

  /** A total over an amount; no price when the amount is zero. */
  function PerAmount(traded: Cell, amount: Cell): Cell {
    if traded.NaN? || amount.NaN? || amount.v == 0.0 then NaN else Num(traded.v / amount.v)
  }

  function ParsedDir(d: Cell): Cell {
    Num(if d.Num? && d.v > 0.0 then 1.0 else 0.0)
  }

  function PerAmounts(traded: Column, dealt: Column): (c: Column)
    ensures c.Keys == traded.Keys * dealt.Keys
  {
    map k | k in traded && k in dealt :: PerAmount(traded[k], dealt[k])
  }

  function ParsedDirs(dirs: Column): (c: Column)
    ensures c.Keys == dirs.Keys
  {
    map k | k in dirs :: ParsedDir(dirs[k])
  }

  function Aggregate(xs: seq<Metrics>): (x: Metrics)
    ensures SameStocks(x) && x.innerAmount.Keys == StocksOf(xs)
  {
    hide SumColumn, PerAmounts, ParsedDirs, StocksOf;
    Metrics(SumColumn(xs, InnerAmount), SumColumn(xs, DealAmount),
            PerAmounts(SumColumn(xs, Traded), SumColumn(xs, DealAmount)),
            SumColumn(xs, TradeValue), SumColumn(xs, TradeCost), ParsedDirs(SumColumn(xs, TradeDir)))
  }

  // ----- trees of steps -----

  /** A price of the baseline with the volume that weighs it; there is no price without volume. */
  datatype BaseQuote = BaseQuote(price: Cell, volume: real)

  /** What the exchange quotes for an interval, by stock and direction. */
  type Quotes = map<(string, Direction), BaseQuote>

  /** A step of some level, with what the exchange quotes for its interval: a lowest-level step has
      orders, the others have inner steps. */
  datatype Tree = Step(fills: seq<Fill>, quotes: Quotes)
                | Node(inner: seq<Tree>, quotes: Quotes)

  function Up(t: Tree): (x: Metrics)
    ensures SameStocks(x)
    decreases t
  {
    match t
    case Step(fills, _) => StepMetrics(fills)
    case Node(inner, _) => Aggregate(UpAll(inner))
  }

  function UpAll(ts: seq<Tree>): (xs: seq<Metrics>)
    ensures |xs| == |ts| && forall i :: 0 <= i < |ts| ==> xs[i] == Up(ts[i])
    decreases ts
  {
    if ts == [] then [] else UpAll(ts[..|ts| - 1]) + [Up(ts[|ts| - 1])]
  }

  function Fills(t: Tree): seq<Fill>
    decreases t
  {
    match t
    case Step(fills, _) => fills
    case Node(inner, _) => FillsOf(inner)
  }

  function FillsOf(ts: seq<Tree>): seq<Fill>
    decreases ts
  {
    if ts == [] then [] else FillsOf(ts[..|ts| - 1]) + Fills(ts[|ts| - 1])
  }

  predicate OnePerStock(fills: seq<Fill>) {
    forall i, j :: 0 <= i < j < |fills| ==> fills[i].stock != fills[j].stock
  }

  /** Each lowest-level step has at most one order of a stock. */
  predicate Separate(t: Tree)
    decreases t
  {
    match t
    case Step(fills, _) => OnePerStock(fills)
    case Node(inner, _) => forall i :: 0 <= i < |inner| ==> Separate(inner[i])
  }

  // ----- the flat computation -----

  function Value(c: Cell): real {
    if c.Num? then c.v else 0.0
  }

  /** The sum of a metric over the fills of a stock. */
  function Flat(fills: seq<Fill>, m: Metric, k: string): real {
    if fills == [] then 0.0
    else
      var last := fills[|fills| - 1];
      Flat(fills[..|fills| - 1], m, k) + if last.stock == k then Value(Entry(last, m)) else 0.0
  }

  lemma {:induction false} FlatAppend(a: seq<Fill>, b: seq<Fill>, m: Metric, k: string)
    ensures Flat(a + b, m, k) == Flat(a, m, k) + Flat(b, m, k)
    decreases |b|
  {
    if b == [] {
      assert a + b == a;
    } else {
      hide Entry;
      assert (a + b)[..|a + b| - 1] == a + b[..|b| - 1];
      FlatAppend(a, b[..|b| - 1], m, k);
    }
  }

  lemma {:induction false} FlatAbsent(fills: seq<Fill>, m: Metric, k: string)
    requires forall i :: 0 <= i < |fills| ==> fills[i].stock != k
    ensures Flat(fills, m, k) == 0.0
    decreases |fills|
  {
    if fills != [] {
      FlatAbsent(fills[..|fills| - 1], m, k);
    }
  }

  lemma {:induction false} PutColumn(x: Metrics, f: Fill, m: Metric, k: string)
    ensures At(ColumnOf(Put(x, f), m), k) == if f.stock == k then Value(Entry(f, m)) else At(ColumnOf(x, m), k)
  {
  }

  lemma {:induction false} StepLast(fills: seq<Fill>)
    requires fills != []
    ensures StepMetrics(fills) == Put(StepMetrics(fills[..|fills| - 1]), fills[|fills| - 1])
  {
    hide Put;
  }

  lemma {:induction false} StepEmpty(m: Metric, k: string)
    ensures At(ColumnOf(StepMetrics([]), m), k) == 0.0
  {
  }

  /** A step with at most one order of each stock adds up its fills. */
  lemma {:induction false} StepIsFlat(fills: seq<Fill>, m: Metric, k: string)
    requires OnePerStock(fills)
    ensures At(ColumnOf(StepMetrics(fills), m), k) == Flat(fills, m, k)
    decreases |fills|
  {
    hide Entry, Put, ColumnOf, StepMetrics, SameStocks;
    if fills == [] {
      StepEmpty(m, k);
    } else {
      var n := |fills| - 1;
      StepIsFlat(fills[..n], m, k);
      StepLast(fills);
      PutColumn(StepMetrics(fills[..n]), fills[n], m, k);
      if fills[n].stock == k {
        FlatAbsent(fills[..n], m, k);
      }
    }
  }

  /** The last order of a stock decides its metrics. */
  lemma {:induction false} LastOrderStands(before: seq<Fill>, f: Fill, after: seq<Fill>, m: Metric)
    requires forall i :: 0 <= i < |after| ==> after[i].stock != f.stock
    ensures At(ColumnOf(StepMetrics(before + [f] + after), m), f.stock) == Value(Entry(f, m))
    decreases |after|
  {
    var all, n := before + [f] + after, |after| - 1;
    StepLast(all);
    hide Entry, Put, ColumnOf, StepMetrics, SameStocks;
    if after == [] {
      assert all == before + [f] && all[..|all| - 1] == before;
      PutColumn(StepMetrics(before), f, m, f.stock);
    } else {
      assert all[..|all| - 1] == before + [f] + after[..n];
      LastOrderStands(before, f, after[..n], m);
      PutColumn(StepMetrics(before + [f] + after[..n]), after[n], m, f.stock);
    }
  }

  /** In a step with several orders of a stock, the last one replaces those before it: a metric is the
      sum over the fills if and only if it sums to zero over all but the last. */
  lemma {:induction false} SecondOrderReplacesFirst(before: seq<Fill>, f: Fill, after: seq<Fill>, m: Metric)
    requires forall i :: 0 <= i < |after| ==> after[i].stock != f.stock
    ensures var fills, k := before + [f] + after, f.stock;
            At(ColumnOf(StepMetrics(fills), m), k) == Flat(fills, m, k) <==> Flat(before, m, k) == 0.0
  {
    LastOrderStands(before, f, after, m);
    FlatOfOne(f, m);
    hide Flat, StepMetrics, Entry, ColumnOf;
    FlatAppend(before + [f], after, m, f.stock);
    FlatAppend(before, [f], m, f.stock);
    FlatAbsent(after, m, f.stock);
  }

  lemma {:induction false} AggregateAt(xs: seq<Metrics>, m: Metric, k: string)
    requires forall i :: 0 <= i < |xs| ==> SameStocks(xs[i])
    requires m != Traded && m != TradeDir
    ensures At(ColumnOf(Aggregate(xs), m), k) == SumAt(Columns(xs, m), k)
  {
    if k !in StocksOf(xs) {
      SumAbsent(Columns(xs, m), k);
    }
  }

  lemma {:induction false} SumAbsent(columns: seq<Column>, k: string)
    requires forall i :: 0 <= i < |columns| ==> k !in columns[i]
    ensures SumAt(columns, k) == 0.0
    decreases |columns|
  {
    if columns != [] {
      SumAbsent(columns[..|columns| - 1], k);
    }
  }

  lemma {:induction false} SumStep(ts: seq<Tree>, m: Metric, k: string)
    requires ts != []
    ensures SumAt(Columns(UpAll(ts), m), k) ==
            SumAt(Columns(UpAll(ts[..|ts| - 1]), m), k) + At(ColumnOf(Up(ts[|ts| - 1]), m), k)
  {
    var n := |ts| - 1;
    hide Up;
    assert Columns(UpAll(ts), m)[..n] == Columns(UpAll(ts[..n]), m);
  }

  /** Amounts, values and costs of any tree of steps are those of all its fills together. */
  lemma {:induction false} SumsAreFlat(t: Tree, m: Metric, k: string)
    requires Separate(t) && m != Traded && m != TradeDir
    ensures At(ColumnOf(Up(t), m), k) == Flat(Fills(t), m, k)
    decreases t
  {
    hide ColumnOf, Columns, Aggregate, StepMetrics;
    match t {
      case Step(fills, _) => StepIsFlat(fills, m, k);
      case Node(inner, _) =>
        AggregateAt(UpAll(inner), m, k);
        InnerSumsAreFlat(inner, m, k);
    }
  }

  lemma {:induction false} InnerSumsAreFlat(ts: seq<Tree>, m: Metric, k: string)
    requires (forall i :: 0 <= i < |ts| ==> Separate(ts[i])) && m != Traded && m != TradeDir
    ensures SumAt(Columns(UpAll(ts), m), k) == Flat(FillsOf(ts), m, k)
    decreases ts
  {
    if ts != [] {
      var n := |ts| - 1;
      SumStep(ts, m, k);
      InnerSumsAreFlat(ts[..n], m, k);
      SumsAreFlat(ts[n], m, k);
      hide Columns, UpAll, ColumnOf, Up;
      FlatAppend(FillsOf(ts[..n]), Fills(ts[n]), m, k);
    }
  }

  // ----- the metrics in the fills' own terms -----

  /** What a fill is counted by: the amount ordered, the amount dealt, its value, its fee, or the amount dealt
      at its price. */
  datatype Quantity = Ordered | Dealt | Money | Charge | Priced

  function Measure(f: Fill, q: Quantity): real {
    match q
    case Ordered => f.amount
    case Dealt => f.dealAmount
    case Money => f.val
    case Charge => f.fee
    case Priced => if f.price.Num? then f.dealAmount * f.price.v else 0.0
  }

  /** The sum over the fills of a stock in one direction. */
  function Side(fills: seq<Fill>, k: string, dir: Direction, q: Quantity): real {
    if fills == [] then 0.0
    else
      var last := fills[|fills| - 1];
      Side(fills[..|fills| - 1], k, dir, q) + if last.stock == k && last.dir == dir then Measure(last, q) else 0.0
  }

  /** What is bought less what is sold. */
  function Net(fills: seq<Fill>, k: string, q: Quantity): real {
    Side(fills, k, BUY, q) - Side(fills, k, SELL, q)
  }

  lemma {:induction false} EntryIsNet(f: Fill)
    ensures var sign := if f.dir == BUY then 1.0 else -1.0;
            && Value(Entry(f, InnerAmount)) == sign * Measure(f, Ordered)
            && Value(Entry(f, DealAmount)) == sign * Measure(f, Dealt)
            && Value(Entry(f, TradeValue)) == sign * Measure(f, Money)
            && Value(Entry(f, Traded)) == sign * Measure(f, Priced)
            && Value(Entry(f, TradeCost)) == Measure(f, Charge)
  {
  }

  lemma {:induction false} FlatIsNet(fills: seq<Fill>, k: string)
    ensures Flat(fills, InnerAmount, k) == Net(fills, k, Ordered)
    ensures Flat(fills, DealAmount, k) == Net(fills, k, Dealt)
    ensures Flat(fills, TradeValue, k) == Net(fills, k, Money)
    ensures Flat(fills, Traded, k) == Net(fills, k, Priced)
    ensures Flat(fills, TradeCost, k) == Side(fills, k, BUY, Charge) + Side(fills, k, SELL, Charge)
    decreases |fills|
  {
    if fills != [] {
      hide Entry, Value, Measure;
      EntryIsNet(fills[|fills| - 1]);
      FlatIsNet(fills[..|fills| - 1], k);
    }
  }

  /** The metrics of any tree of steps, in the fills' own terms: amounts and values are those bought less those
      sold, costs are all fees together, and the value at the prices is bought less sold too, but for what the
      inner steps lose. */
  lemma {:induction false} SumsAreNet(t: Tree, k: string)
    requires Separate(t)
    ensures var fills, x := Fills(t), Up(t);
            && At(x.innerAmount, k) == Net(fills, k, Ordered)
            && At(x.dealAmount, k) == Net(fills, k, Dealt)
            && At(x.tradeValue, k) == Net(fills, k, Money)
            && At(x.tradeCost, k) == Side(fills, k, BUY, Charge) + Side(fills, k, SELL, Charge)
            && At(TradedColumn(x), k) == Net(fills, k, Priced) - Loss(t, k)
  {
    hide Flat, Net, Side, Up, Fills, At, TradedColumn, Loss, Separate;
    FlatIsNet(Fills(t), k);
    SumsAreFlat(t, InnerAmount, k);
    SumsAreFlat(t, DealAmount, k);
    SumsAreFlat(t, TradeValue, k);
    SumsAreFlat(t, TradeCost, k);
    TradedIsFlatLessLoss(t, k);
  }

  // ----- stocks -----

  predicate HasFill(fills: seq<Fill>, k: string) {
    exists i :: 0 <= i < |fills| && fills[i].stock == k
  }

  lemma {:induction false} HasFillAppend(a: seq<Fill>, b: seq<Fill>, k: string)
    ensures HasFill(a + b, k) <==> HasFill(a, k) || HasFill(b, k)
  {
    if HasFill(a, k) {
      var i :| 0 <= i < |a| && a[i].stock == k;
      assert (a + b)[i] == a[i];
    }
    if HasFill(b, k) {
      var i :| 0 <= i < |b| && b[i].stock == k;
      assert (a + b)[|a| + i] == b[i];
    }
  }

  lemma {:induction false} StepStocks(fills: seq<Fill>, k: string)
    ensures k in StepMetrics(fills).innerAmount <==> HasFill(fills, k)
    decreases |fills|
  {
    if fills != [] {
      var n := |fills| - 1;
      StepStocks(fills[..n], k);
      StepLast(fills);
      hide StepMetrics;
      assert fills == fills[..n] + [fills[n]] && [fills[n]][0] == fills[n];
      HasFillAppend(fills[..n], [fills[n]], k);
    }
  }

  /** Every level has entries for exactly the stocks that its fills are of. */
  lemma {:induction false} StocksAreFilled(t: Tree, k: string)
    ensures k in Up(t).innerAmount <==> HasFill(Fills(t), k)
    decreases t
  {
    hide StepMetrics, HasFill;
    match t {
      case Step(fills, _) => StepStocks(fills, k);
      case Node(inner, _) => InnerStocksAreFilled(inner, k);
    }
  }

  lemma {:induction false} StocksOfLast(ts: seq<Tree>, k: string)
    requires ts != []
    ensures k in StocksOf(UpAll(ts)) <==> k in StocksOf(UpAll(ts[..|ts| - 1])) || k in Up(ts[|ts| - 1]).innerAmount
  {
    hide Up;
    var n := |ts| - 1;
    var before, all := UpAll(ts[..n]), UpAll(ts);
    assert forall i :: 0 <= i < n ==> all[i] == before[i];
    assert all[n] == Up(ts[n]);
  }

  lemma {:induction false} InnerStocksAreFilled(ts: seq<Tree>, k: string)
    ensures k in StocksOf(UpAll(ts)) <==> HasFill(FillsOf(ts), k)
    decreases ts
  {
    if ts != [] {
      var n := |ts| - 1;
      StocksOfLast(ts, k);
      InnerStocksAreFilled(ts[..n], k);
      StocksAreFilled(ts[n], k);
      hide Up, UpAll, StocksOf, Fills, HasFill;
      HasFillAppend(FillsOf(ts[..n]), Fills(ts[n]), k);
    }
  }

  // ----- prices -----

  /** What a tree of steps loses of a stock, read off its fills: the traded value of a step whose fills net
      to a zero amount has no price to carry it; else what its inner steps lose. */
  function Loss(t: Tree, k: string): real
    decreases t
  {
    match t
    case Step(_, _) => 0.0
    case Node(inner, _) =>
      if Flat(FillsOf(inner), DealAmount, k) == 0.0 then Flat(FillsOf(inner), Traded, k) else LossOf(inner, k)
  }

  function LossOf(ts: seq<Tree>, k: string): real
    decreases ts
  {
    if ts == [] then 0.0 else LossOf(ts[..|ts| - 1], k) + Loss(ts[|ts| - 1], k)
  }

  lemma {:induction false} PriceRestores(traded: real, amount: real)
    ensures Value(Times(Num(amount), PerAmount(Num(traded), Num(amount)))) == if amount == 0.0 then 0.0 else traded
  {
    if amount > 0.0 {
      QuotientTimes(traded, amount);
    } else if amount < 0.0 {
      QuotientTimes(-traded, -amount);
      assert traded / amount == -traded / -amount;
    }
  }

  /** An aggregated price carries the traded value on, unless the net amount is zero. */
  lemma {:induction false} AggregateTraded(xs: seq<Metrics>, k: string)
    requires forall i :: 0 <= i < |xs| ==> SameStocks(xs[i])
    ensures At(ColumnOf(Aggregate(xs), Traded), k) ==
            if SumAt(Columns(xs, DealAmount), k) == 0.0 then 0.0 else SumAt(Columns(xs, Traded), k)
  {
    if k in StocksOf(xs) {
      PriceRestores(SumAt(Columns(xs, Traded), k), SumAt(Columns(xs, DealAmount), k));
    } else {
      SumAbsent(Columns(xs, DealAmount), k);
    }
  }

  lemma {:induction false} TradedIsFlatLessLoss(t: Tree, k: string)
    requires Separate(t)
    ensures At(ColumnOf(Up(t), Traded), k) == Flat(Fills(t), Traded, k) - Loss(t, k)
    decreases t
  {
    hide ColumnOf, Columns, Aggregate, StepMetrics, Flat;
    match t {
      case Step(fills, _) => StepIsFlat(fills, Traded, k);
      case Node(inner, _) =>
        AggregateTraded(UpAll(inner), k);
        InnerSumsAreFlat(inner, DealAmount, k);
        InnerTradedIsFlatLessLoss(inner, k);
    }
  }

  lemma {:induction false} InnerTradedIsFlatLessLoss(ts: seq<Tree>, k: string)
    requires forall i :: 0 <= i < |ts| ==> Separate(ts[i])
    ensures SumAt(Columns(UpAll(ts), Traded), k) == Flat(FillsOf(ts), Traded, k) - LossOf(ts, k)
    decreases ts
  {
    if ts != [] {
      var n := |ts| - 1;
      SumStep(ts, Traded, k);
      InnerTradedIsFlatLessLoss(ts[..n], k);
      TradedIsFlatLessLoss(ts[n], k);
      hide Columns, UpAll, ColumnOf, Up, Loss;
      FlatAppend(FillsOf(ts[..n]), Fills(ts[n]), Traded, k);
    }
  }

  /** The price of a stock computed from all fills at once. */
  function FlatPrice(fills: seq<Fill>, k: string): Cell {
    PerAmount(Num(Flat(fills, Traded, k)), Num(Flat(fills, DealAmount, k)))
  }

  lemma {:induction false} SameQuotient(a: real, b: real, d: real)
    requires d != 0.0
    ensures a / d == b / d <==> a == b
  {
    assert a / d == b / d ==> a / d * d == b / d * d;
  }

  lemma {:induction false} SamePriceExactly(a: real, b: real, d: real)
    ensures PerAmount(Num(a), Num(d)) == PerAmount(Num(b), Num(d)) <==> d == 0.0 || a == b
  {
    if d != 0.0 {
      SameQuotient(a, b, d);
    }
  }

  /** What an aggregated price is made of. */
  lemma {:induction false} NodePrice(t: Tree, k: string)
    requires t.Node?
    ensures k in Up(t).tradePrice ==>
              Up(t).tradePrice[k] == PerAmount(Num(SumAt(Columns(UpAll(t.inner), Traded), k)),
                                               Num(SumAt(Columns(UpAll(t.inner), DealAmount), k)))
  {
    hide SumAt, Columns, UpAll, StocksOf, PerAmount;
  }

  lemma {:induction false} NodeParts(t: Tree)
    requires t.Node? && Separate(t)
    ensures Fills(t) == FillsOf(t.inner) && forall i :: 0 <= i < |t.inner| ==> Separate(t.inner[i])
  {
  }

  /** The price of an aggregated step is the price of all its fills if and only if the inner steps lost
      nothing on the way (or there is no net amount, and no price either way). */
  lemma {:induction false} PriceIsFlatExactly(t: Tree, k: string)
    requires t.Node? && Separate(t)
    ensures HasFill(Fills(t), k) ==>
              && k in Up(t).tradePrice
              && (Up(t).tradePrice[k] == FlatPrice(Fills(t), k) <==>
                    Flat(Fills(t), DealAmount, k) == 0.0 || LossOf(t.inner, k) == 0.0)
  {
    hide Flat, SumAt, LossOf, FillsOf, UpAll, Up, Separate, PerAmount, Fills, Columns, StocksOf, HasFill;
    StocksAreFilled(t, k);
    NodePrice(t, k);
    NodeParts(t);
    InnerSumsAreFlat(t.inner, DealAmount, k);
    InnerTradedIsFlatLessLoss(t.inner, k);
    SamePriceExactly(Flat(FillsOf(t.inner), Traded, k) - LossOf(t.inner, k), Flat(FillsOf(t.inner), Traded, k),
                     Flat(FillsOf(t.inner), DealAmount, k));
  }

  /** All fills of the stock go one way, with amounts that are not negative. */
  predicate OneWay(fills: seq<Fill>, k: string, dir: Direction) {
    forall i :: 0 <= i < |fills| && fills[i].stock == k ==> fills[i].dir == dir && fills[i].dealAmount >= 0.0
  }

  lemma {:induction false} OneWayAmounts(fills: seq<Fill>, k: string, dir: Direction)
    requires OneWay(fills, k, dir)
    ensures Flat(fills, DealAmount, k) * Sign(dir) >= 0.0
    ensures Flat(fills, DealAmount, k) == 0.0 ==> Flat(fills, Traded, k) == 0.0
    decreases |fills|
  {
    if fills != [] {
      OneWayAmounts(fills[..|fills| - 1], k, dir);
    }
  }

  /** When the fills of a stock all go one way, no inner step loses anything of it. */
  lemma {:induction false} OneWayLosesNothing(t: Tree, k: string, dir: Direction)
    requires Separate(t) && OneWay(Fills(t), k, dir)
    ensures Loss(t, k) == 0.0
    decreases t
  {
    if t.Node? {
      InnerOneWay(t.inner, k, dir);
      hide Separate, SumAt, Columns, Flat, LossOf, FillsOf, UpAll;
      InnerTradedIsFlatLessLoss(t.inner, k);
      InnerSumsAreFlat(t.inner, DealAmount, k);
      OneWayAmounts(FillsOf(t.inner), k, dir);
    }
  }

  lemma {:induction false} InnerOneWay(ts: seq<Tree>, k: string, dir: Direction)
    requires (forall i :: 0 <= i < |ts| ==> Separate(ts[i])) && OneWay(FillsOf(ts), k, dir)
    ensures LossOf(ts, k) == 0.0
    decreases ts
  {
    if ts != [] {
      var n := |ts| - 1;
      OneWayParts(FillsOf(ts[..n]), Fills(ts[n]), k, dir);
      hide Loss, Separate, Fills, OneWay;
      InnerOneWay(ts[..n], k, dir);
      OneWayLosesNothing(ts[n], k, dir);
    }
  }

  lemma {:induction false} OneWayParts(a: seq<Fill>, b: seq<Fill>, k: string, dir: Direction)
    requires OneWay(a + b, k, dir)
    ensures OneWay(a, k, dir) && OneWay(b, k, dir)
  {
    assert forall i :: 0 <= i < |a| ==> a[i] == (a + b)[i];
    assert forall i :: 0 <= i < |b| ==> b[i] == (a + b)[|a| + i];
  }

  /** For a stock whose fills share a direction, at any nesting, the aggregated amount and price are
      those computed directly from all fills of the lowest level. */
  lemma {:induction false} TreeIsFlat(t: Tree, k: string, dir: Direction)
    requires t.Node? && Separate(t) && OneWay(Fills(t), k, dir)
    ensures At(Up(t).dealAmount, k) == Flat(Fills(t), DealAmount, k)
    ensures HasFill(Fills(t), k) ==> k in Up(t).tradePrice && Up(t).tradePrice[k] == FlatPrice(Fills(t), k)
    ensures FlatPrice(Fills(t), k) == PerAmount(Num(Net(Fills(t), k, Priced)), Num(Net(Fills(t), k, Dealt)))
  {
    FlatIsNet(Fills(t), k);
    assert FlatPrice(Fills(t), k) == PerAmount(Num(Net(Fills(t), k, Priced)), Num(Net(Fills(t), k, Dealt)));
    hide Net, PerAmount;
    hide Flat, Separate, OneWay, LossOf, FlatPrice, Fills, FillsOf, Up, HasFill;
    SumsAreFlat(t, DealAmount, k);
    PriceIsFlatExactly(t, k);
    NodeParts(t);
    InnerOneWay(t.inner, k, dir);
  }

  const BUY_TEN := Fill("S", BUY, 10.0, 10.0, 10.0, 0.0, Num(1.0))
  const SELL_TEN := Fill("S", SELL, 10.0, 10.0, 20.0, 0.0, Num(2.0))
  const BUY_FIVE := Fill("S", BUY, 5.0, 5.0, 15.0, 0.0, Num(3.0))
  const ROUND_TRIP := [Step([BUY_TEN], map[]), Step([SELL_TEN], map[])]
  const ROUND_TRIP_AND_BUY := [Node(ROUND_TRIP, map[]), Step([BUY_FIVE], map[])]

  lemma {:induction false} PairOf(a: Tree, b: Tree, k: string)
    ensures FillsOf([a, b]) == Fills(a) + Fills(b)
    ensures LossOf([a, b], k) == Loss(a, k) + Loss(b, k)
  {
    hide Fills, Loss;
    assert [a, b][..1] == [a] && [a][..0] == [];
    assert FillsOf([a]) == Fills(a) && LossOf([a], k) == Loss(a, k);
  }

  lemma {:induction false} RoundTripNets()
    ensures FillsOf(ROUND_TRIP) == [BUY_TEN] + [SELL_TEN]
    ensures Flat(FillsOf(ROUND_TRIP), DealAmount, "S") == 0.0
    ensures Flat(FillsOf(ROUND_TRIP), Traded, "S") == -10.0
    ensures Loss(Node(ROUND_TRIP, map[]), "S") == -10.0
  {
    PairOf(ROUND_TRIP[0], ROUND_TRIP[1], "S");
    assert ROUND_TRIP == [ROUND_TRIP[0], ROUND_TRIP[1]];
    FlatOfOne(BUY_TEN, DealAmount);
    FlatOfOne(BUY_TEN, Traded);
    FlatOfOne(SELL_TEN, DealAmount);
    FlatOfOne(SELL_TEN, Traded);
    hide Flat, FillsOf, LossOf, SumAt, UpAll, Columns;
    FlatAppend([BUY_TEN], [SELL_TEN], DealAmount, "S");
    FlatAppend([BUY_TEN], [SELL_TEN], Traded, "S");
    InnerTradedIsFlatLessLoss(ROUND_TRIP, "S");
    InnerSumsAreFlat(ROUND_TRIP, DealAmount, "S");
  }

  /** The totals of the outer step: what the fills give, and what the round trip loses. */
  lemma {:induction false} OuterTotals()
    ensures LossOf(ROUND_TRIP_AND_BUY, "S") == -10.0
    ensures Flat(FillsOf(ROUND_TRIP_AND_BUY), Traded, "S") == 5.0
    ensures Flat(FillsOf(ROUND_TRIP_AND_BUY), DealAmount, "S") == 5.0
  {
    RoundTripNets();
    PairOf(ROUND_TRIP_AND_BUY[0], ROUND_TRIP_AND_BUY[1], "S");
    FlatOfOne(BUY_FIVE, DealAmount);
    FlatOfOne(BUY_FIVE, Traded);
    assert Fills(Node(ROUND_TRIP, map[])) == FillsOf(ROUND_TRIP);
    assert Fills(Step([BUY_FIVE], map[])) == [BUY_FIVE] && Loss(Step([BUY_FIVE], map[]), "S") == 0.0;
    hide Flat, FillsOf, LossOf, Fills, Loss;
    FlatAppend(FillsOf(ROUND_TRIP), [BUY_FIVE], DealAmount, "S");
    FlatAppend(FillsOf(ROUND_TRIP), [BUY_FIVE], Traded, "S");
  }

  /** Buying 10 at 1 and selling 10 at 2 in one inner step and buying 5 at 3 in another: the round trip
      nets to nothing and has no price, so its traded value is lost and the outer price is not that of
      the fills. */
  lemma {:induction false} RoundTripLosesPrice()
    ensures FlatPrice(FillsOf(ROUND_TRIP_AND_BUY), "S") == Num(1.0)
    ensures PerAmount(Num(SumAt(Columns(UpAll(ROUND_TRIP_AND_BUY), Traded), "S")),
                      Num(SumAt(Columns(UpAll(ROUND_TRIP_AND_BUY), DealAmount), "S"))) == Num(3.0)
  {
    OuterTotals();
    assert forall i :: 0 <= i < 2 ==> Separate(ROUND_TRIP_AND_BUY[i]);
    assert PerAmount(Num(5.0), Num(5.0)) == Num(1.0) && PerAmount(Num(15.0), Num(5.0)) == Num(3.0);
    hide Flat, FillsOf, LossOf, SumAt, UpAll, Columns, Separate, PerAmount;
    InnerTradedIsFlatLessLoss(ROUND_TRIP_AND_BUY, "S");
    InnerSumsAreFlat(ROUND_TRIP_AND_BUY, DealAmount, "S");
  }

  lemma {:induction false} FlatOfOne(f: Fill, m: Metric)
    ensures Flat([f], m, f.stock) == Value(Entry(f, m))
  {
    assert [f][..0] == [];
  }

  // ----- directions -----

  predicate HasBuy(fills: seq<Fill>, k: string) {
    exists i :: 0 <= i < |fills| && fills[i].stock == k && fills[i].dir == BUY
  }

  lemma {:induction false} HasBuyAppend(a: seq<Fill>, b: seq<Fill>, k: string)
    ensures HasBuy(a + b, k) <==> HasBuy(a, k) || HasBuy(b, k)
  {
    if HasBuy(a, k) {
      var i :| 0 <= i < |a| && a[i].stock == k && a[i].dir == BUY;
      assert (a + b)[i] == a[i];
    }
    if HasBuy(b, k) {
      var i :| 0 <= i < |b| && b[i].stock == k && b[i].dir == BUY;
      assert (a + b)[|a| + i] == b[i];
    }
  }

  lemma {:induction false} DirectionOfOne(f: Fill)
    ensures Value(Entry(f, TradeDir)) == if f.dir == BUY then 1.0 else 0.0
  {
  }

  lemma {:induction false} HasBuyOfOne(f: Fill, k: string)
    ensures HasBuy([f], k) <==> f.stock == k && f.dir == BUY
  {
    assert [f][0] == f;
  }

  lemma {:induction false} FlatDirection(fills: seq<Fill>, k: string)
    ensures Flat(fills, TradeDir, k) >= 0.0
    ensures Flat(fills, TradeDir, k) > 0.0 <==> HasBuy(fills, k)
    decreases |fills|
  {
    if fills != [] {
      var n := |fills| - 1;
      hide Entry, Value, HasBuy;
      DirectionOfOne(fills[n]);
      HasBuyOfOne(fills[n], k);
      FlatDirection(fills[..n], k);
      assert fills == fills[..n] + [fills[n]];
      HasBuyAppend(fills[..n], [fills[n]], k);
    }
  }

  lemma {:induction false} DirectionOfSeparate(fills: seq<Fill>, k: string)
    requires OnePerStock(fills)
    ensures Flat(fills, TradeDir, k) == 0.0 || Flat(fills, TradeDir, k) == 1.0
    decreases |fills|
  {
    if fills != [] {
      var n := |fills| - 1;
      hide Entry, Value;
      DirectionOfOne(fills[n]);
      DirectionOfSeparate(fills[..n], k);
      if fills[n].stock == k {
        FlatAbsent(fills[..n], TradeDir, k);
      }
    }
  }

  lemma {:induction false} AggregateDirection(xs: seq<Metrics>, k: string)
    requires forall i :: 0 <= i < |xs| ==> SameStocks(xs[i])
    ensures At(Aggregate(xs).tradeDir, k) == if SumAt(Columns(xs, TradeDir), k) > 0.0 then 1.0 else 0.0
  {
    hide SumAt;
    if k !in StocksOf(xs) {
      SumAbsent(Columns(xs, TradeDir), k);
    }
  }

  /** At every level the direction of a stock is a buy exactly when some fill of it was one. */
  lemma {:induction false} DirectionIsBuyExactly(t: Tree, k: string)
    requires Separate(t)
    ensures At(Up(t).tradeDir, k) == if HasBuy(Fills(t), k) then 1.0 else 0.0
    decreases t
  {
    hide SumAt, Columns, StepMetrics, HasBuy, Flat, Aggregate, UpAll, FillsOf;
    match t {
      case Step(fills, _) =>
        StepIsFlat(fills, TradeDir, k);
        FlatDirection(fills, k);
        DirectionOfSeparate(fills, k);
      case Node(inner, _) =>
        InnerDirection(inner, k);
        AggregateDirection(UpAll(inner), k);
    }
  }

  lemma {:induction false} InnerDirection(ts: seq<Tree>, k: string)
    requires forall i :: 0 <= i < |ts| ==> Separate(ts[i])
    ensures SumAt(Columns(UpAll(ts), TradeDir), k) >= 0.0
    ensures SumAt(Columns(UpAll(ts), TradeDir), k) > 0.0 <==> HasBuy(FillsOf(ts), k)
    decreases ts
  {
    if ts != [] {
      var n := |ts| - 1;
      assert FillsOf(ts) == FillsOf(ts[..n]) + Fills(ts[n]);
      hide Columns, UpAll, Up, SumAt, Fills, FillsOf, Separate, HasBuy;
      SumStep(ts, TradeDir, k);
      InnerDirection(ts[..n], k);
      DirectionIsBuyExactly(ts[n], k);
      HasBuyAppend(FillsOf(ts[..n]), Fills(ts[n]), k);
    }
  }

  // ----- base prices -----

  /** The direction recorded for a stock. */
  function DirOf(dirs: Column, k: string): Direction {
    if At(dirs, k) == 1.0 then BUY else SELL
  }

  /** Base prices are quoted for buying exactly when some fill of the stock was a buy, else for selling. */
  lemma {:induction false} QuotedForBuyExactly(t: Tree, k: string)
    requires Separate(t)
    ensures DirOf(Up(t).tradeDir, k) == if HasBuy(Fills(t), k) then BUY else SELL
  {
    hide Up, Fills, HasBuy, Separate;
    DirectionIsBuyExactly(t, k);
  }

  /** The base price of an inner step for the stocks of the outer one: its own aggregated price, or else
      what the exchange quotes for its interval in the outer step's direction. */
  function InnerBase(base: map<string, BaseQuote>, quotes: Quotes, dirs: Column): map<string, BaseQuote> {
    map k | k in dirs && ((k, DirOf(dirs, k)) in quotes || (k in base && base[k].price.Num?)) ::
      if k in base && base[k].price.Num? then base[k] else quotes[(k, DirOf(dirs, k))]
  }

  function VolumeAt(bases: seq<map<string, BaseQuote>>, k: string): real {
    if bases == [] then 0.0
    else
      var last := bases[|bases| - 1];
      VolumeAt(bases[..|bases| - 1], k) + if k in last then last[k].volume else 0.0
  }

  function Weight(q: BaseQuote): real {
    Value(q.price) * q.volume
  }

  function WeightAt(bases: seq<map<string, BaseQuote>>, k: string): real {
    if bases == [] then 0.0
    else
      var last := bases[|bases| - 1];
      WeightAt(bases[..|bases| - 1], k) + if k in last then Weight(last[k]) else 0.0
  }

  function BaseStocks(bases: seq<map<string, BaseQuote>>): set<string> {
    set i, k | 0 <= i < |bases| && k in bases[i] :: k
  }

  function MeanBase(weight: real, volume: real): BaseQuote {
    BaseQuote(PerAmount(Num(weight), Num(volume)), volume)
  }

  function CombinedBase(bases: seq<map<string, BaseQuote>>): map<string, BaseQuote> {
    map k | k in BaseStocks(bases) :: MeanBase(WeightAt(bases, k), VolumeAt(bases, k))
  }

  /** The base prices of a step; those of a lowest-level step are not set. */
  function Base(t: Tree): map<string, BaseQuote>
    decreases t
  {
    match t
    case Step(_, _) => map[]
    case Node(inner, _) => CombinedBase(InnerBases(inner, Up(t).tradeDir))
  }

  function InnerBases(ts: seq<Tree>, dirs: Column): seq<map<string, BaseQuote>>
    decreases ts
  {
    if ts == [] then []
    else
      var last := ts[|ts| - 1];
      InnerBases(ts[..|ts| - 1], dirs) + [InnerBase(Base(last), last.quotes, dirs)]
  }

  /** The step has a base price of its own for the stock: some fill is of the stock, and the quotes that its
      inner steps rest on have some volume. */
  predicate Own(t: Tree, k: string)
    decreases t, 0
  {
    && t.Node? && HasFill(Fills(t), k)
    && TotalVolume(PartsOf(t.inner, k, DirOf(Up(t).tradeDir, k))) != 0.0
  }

  /** The exchange quotes a step's base price rests on: those of the inner steps where they have prices
      of their own, and else the quote for the whole step in the direction of the outer one. */
  function Parts(t: Tree, k: string, dir: Direction): seq<BaseQuote>
    decreases t, 1
  {
    if Own(t, k) then PartsOf(t.inner, k, DirOf(Up(t).tradeDir, k))
    else if (k, dir) in t.quotes then [t.quotes[(k, dir)]]
    else []
  }

  function PartsOf(ts: seq<Tree>, k: string, dir: Direction): seq<BaseQuote>
    decreases ts, 0
  {
    if ts == [] then [] else PartsOf(ts[..|ts| - 1], k, dir) + Parts(ts[|ts| - 1], k, dir)
  }

  function TotalVolume(qs: seq<BaseQuote>): real {
    if qs == [] then 0.0 else TotalVolume(qs[..|qs| - 1]) + qs[|qs| - 1].volume
  }

  function TotalWeight(qs: seq<BaseQuote>): real {
    if qs == [] then 0.0 else TotalWeight(qs[..|qs| - 1]) + Weight(qs[|qs| - 1])
  }

  lemma {:induction false} TotalsAppend(a: seq<BaseQuote>, b: seq<BaseQuote>)
    ensures TotalVolume(a + b) == TotalVolume(a) + TotalVolume(b)
    ensures TotalWeight(a + b) == TotalWeight(a) + TotalWeight(b)
    decreases |b|
  {
    if b == [] {
      assert a + b == a;
    } else {
      hide Weight;
      assert (a + b)[..|a + b| - 1] == a + b[..|b| - 1];
      TotalsAppend(a, b[..|b| - 1]);
    }
  }

  lemma {:induction false} MeanKeepsWeight(weight: real, volume: real)
    requires MeanBase(weight, volume).price.Num?
    ensures Weight(MeanBase(weight, volume)) == weight
  {
    PriceRestores(weight, volume);
    assert MeanBase(weight, volume).price.v * volume == volume * MeanBase(weight, volume).price.v;
  }

  /** A base price is computed for exactly the stocks for which there is one by the fills and quotes. */
  lemma {:induction false} OwnExactly(t: Tree, k: string)
    ensures k in Base(t) && Base(t)[k].price.Num? <==> Own(t, k)
    decreases t, 0
  {
    hide TotalWeight, TotalVolume, WeightAt, VolumeAt, PartsOf, InnerBases, Up, StepMetrics, Fills, HasFill;
    if t.Node? {
      var dirs := Up(t).tradeDir;
      var bases := InnerBases(t.inner, dirs);
      StocksAreFilled(t, k);
      BaseStocksWithin(t.inner, dirs, k);
      NoVolume(bases, k);
      if k in dirs {
        InnerBaseIsFlat(t.inner, dirs, k);
      }
    }
  }

  lemma {:induction false} NoVolume(bases: seq<map<string, BaseQuote>>, k: string)
    ensures k !in BaseStocks(bases) ==> VolumeAt(bases, k) == 0.0
    decreases |bases|
  {
    if bases != [] && k !in BaseStocks(bases) {
      var before := bases[..|bases| - 1];
      assert forall i :: 0 <= i < |before| ==> before[i] == bases[i];
      NoVolume(before, k);
    }
  }

  /** The base price of a step with one of its own is the mean of the quotes it rests on, weighted by
      their volumes, and its base volume is their sum, at any nesting. */
  lemma {:induction false} BaseIsFlat(t: Tree, k: string, dir: Direction)
    requires Own(t, k)
    ensures k in Base(t)
    ensures Base(t)[k] == MeanBase(TotalWeight(Parts(t, k, dir)), TotalVolume(Parts(t, k, dir)))
    decreases t, 1
  {
    OwnExactly(t, k);
    hide MeanBase, TotalWeight, TotalVolume, WeightAt, VolumeAt, BaseStocks, PartsOf, InnerBases, Up, HasFill, Fills;
    var dirs := Up(t).tradeDir;
    BaseStocksWithin(t.inner, dirs, k);
    InnerBaseIsFlat(t.inner, dirs, k);
  }

  lemma {:induction false} BaseStocksWithin(ts: seq<Tree>, dirs: Column, k: string)
    ensures k in BaseStocks(InnerBases(ts, dirs)) ==> k in dirs
    decreases ts
  {
    if ts != [] {
      var n := |ts| - 1;
      BaseStocksWithin(ts[..n], dirs, k);
      hide Base;
      var before, all := InnerBases(ts[..n], dirs), InnerBases(ts, dirs);
      if k in BaseStocks(all) {
        var i :| 0 <= i < |all| && k in all[i];
        assert i < |before| ==> all[i] == before[i];
      }
    }
  }

  lemma {:induction false} InnerBaseIsFlat(ts: seq<Tree>, dirs: Column, k: string)
    requires k in dirs
    ensures WeightAt(InnerBases(ts, dirs), k) == TotalWeight(PartsOf(ts, k, DirOf(dirs, k)))
    ensures VolumeAt(InnerBases(ts, dirs), k) == TotalVolume(PartsOf(ts, k, DirOf(dirs, k)))
    decreases ts
  {
    if ts != [] {
      var n := |ts| - 1;
      var before, last := InnerBases(ts[..n], dirs), ts[n];
      InnerBaseIsFlat(ts[..n], dirs, k);
      OneBaseIsFlat(last, dirs, k);
      hide Base, Parts, InnerBase, Weight;
      assert InnerBases(ts, dirs)[..n] == before by {
        InnerBasesLength(ts[..n], dirs);
      }
      InnerBasesLength(ts, dirs);
      TotalsAppend(PartsOf(ts[..n], k, DirOf(dirs, k)), Parts(last, k, DirOf(dirs, k)));
    }
  }

  lemma {:induction false} InnerBasesLength(ts: seq<Tree>, dirs: Column)
    ensures |InnerBases(ts, dirs)| == |ts|
    decreases |ts|
  {
    if ts != [] {
      InnerBasesLength(ts[..|ts| - 1], dirs);
    }
  }

  lemma {:induction false} OneBaseIsFlat(t: Tree, dirs: Column, k: string)
    requires k in dirs
    ensures var base := InnerBase(Base(t), t.quotes, dirs);
            && TotalWeight(Parts(t, k, DirOf(dirs, k))) == (if k in base then Weight(base[k]) else 0.0)
            && TotalVolume(Parts(t, k, DirOf(dirs, k))) == (if k in base then base[k].volume else 0.0)
    decreases t, 2
  {
    OwnExactly(t, k);
    if Own(t, k) {
      var parts := Parts(t, k, DirOf(dirs, k));
      BaseIsFlat(t, k, DirOf(dirs, k));
      MeanKeepsWeight(TotalWeight(parts), TotalVolume(parts));
      hide TotalWeight, TotalVolume, Weight;
    } else if (k, DirOf(dirs, k)) in t.quotes {
      hide Weight, Base;
      var quote := t.quotes[(k, DirOf(dirs, k))];
      assert [quote][..0] == [];
      assert TotalWeight([quote]) == Weight(quote);
    }
  }

  /** The quotes of the lowest-level steps, each in the direction of the step just above it. */
  function LowestQuotes(t: Tree, k: string, dir: Direction): seq<BaseQuote>
    decreases t
  {
    match t
    case Step(_, quotes) => if (k, dir) in quotes then [quotes[(k, dir)]] else []
    case Node(inner, _) => LowestQuotesOf(inner, k, DirOf(Up(t).tradeDir, k))
  }

  function LowestQuotesOf(ts: seq<Tree>, k: string, dir: Direction): seq<BaseQuote>
    decreases ts
  {
    if ts == [] then [] else LowestQuotesOf(ts[..|ts| - 1], k, dir) + LowestQuotes(ts[|ts| - 1], k, dir)
  }

  /** Every aggregated step has some fill of the stock, and some volume in the quotes it rests on. */
  predicate Covered(t: Tree, k: string)
    decreases t
  {
    t.Node? ==> Own(t, k) && forall i :: 0 <= i < |t.inner| ==> Covered(t.inner[i], k)
  }

  /** Then the base price rests on the lowest level alone. */
  lemma {:induction false} CoveredRestsOnLowest(t: Tree, k: string, dir: Direction)
    requires Covered(t, k)
    ensures Parts(t, k, dir) == LowestQuotes(t, k, dir)
    decreases t
  {
    if t.Node? {
      hide Own, LowestQuotesOf, PartsOf;
      InnerRestsOnLowest(t.inner, k, DirOf(Up(t).tradeDir, k));
    }
  }

  lemma {:induction false} InnerRestsOnLowest(ts: seq<Tree>, k: string, dir: Direction)
    requires forall i :: 0 <= i < |ts| ==> Covered(ts[i], k)
    ensures PartsOf(ts, k, dir) == LowestQuotesOf(ts, k, dir)
    decreases ts
  {
    if ts != [] {
      hide Own, Covered, Parts, LowestQuotes;
      InnerRestsOnLowest(ts[..|ts| - 1], k, dir);
      CoveredRestsOnLowest(ts[|ts| - 1], k, dir);
    }
  }

  // ----- the object -----

  /** The sum of a metric over inner steps, for the given stocks. */
  method SumByIndex(columns: seq<Column>, stocks: set<string>) returns (r: Column)
    ensures r == map k | k in stocks :: Num(SumAt(columns, k))
  {
    hide SumAt;
    r := map[];
    var left := stocks;
    while left != {}
      invariant left <= stocks
      invariant r == map k | k in stocks && k !in left :: Num(SumAt(columns, k))
      decreases |left|
    {
      var k :| k in left;
      left := left - {k};
      var sum := 0.0;
      SumOfNone(k);
      for i := 0 to |columns|
        invariant sum == SumAt(columns[..i], k)
      {
        SumOneMore(columns, i, k);
        if k in columns[i] && columns[i][k].Num? {
          sum := sum + columns[i][k].v;
        } else {
          sum := sum + 0.0;
        }
      }
      assert columns[..|columns|] == columns;
      r := r[k := Num(sum)];
    }
  }

  lemma {:induction false} SumOfNone(k: string)
    ensures forall columns: seq<Column> :: columns == [] ==> SumAt(columns, k) == 0.0
  {
  }

  lemma {:induction false} SumOneMore(columns: seq<Column>, i: nat, k: string)
    requires i < |columns|
    ensures SumAt(columns[..i + 1], k) == SumAt(columns[..i], k) + At(columns[i], k)
  {
    assert columns[..i + 1][..i] == columns[..i];
  }

  class OrderIndicator {
    var innerAmount: Column
    var dealAmount: Column
    var tradePrice: Column
    var tradeValue: Column
    var tradeCost: Column
    var tradeDir: Column
    var base: map<string, BaseQuote>

    constructor ()
      ensures Now() == NOTHING && base == map[]
    {
      innerAmount, dealAmount, tradePrice, tradeValue, tradeCost, tradeDir := map[], map[], map[], map[], map[], map[];
      base := map[];
    }

    function Now(): Metrics
      reads this
    {
      Metrics(innerAmount, dealAmount, tradePrice, tradeValue, tradeCost, tradeDir)
    }

    method UpdateOrderTradeInfo(fills: seq<Fill>)
      modifies this
      ensures Now() == StepMetrics(fills) && base == old(base)
    {
      hide StepMetrics, Entry, SameStocks;
      var amount, dealt, price, value, cost, dir: Column := map[], map[], map[], map[], map[], map[];
      StepOfNone();
      for i := 0 to |fills|
        modifies {}
        invariant amount == StepMetrics(fills[..i]).innerAmount && dealt == StepMetrics(fills[..i]).dealAmount
        invariant price == StepMetrics(fills[..i]).tradePrice && value == StepMetrics(fills[..i]).tradeValue
        invariant cost == StepMetrics(fills[..i]).tradeCost && dir == StepMetrics(fills[..i]).tradeDir
      {
        StepOneMore(fills, i);
        var f := fills[i];
        amount := amount[f.stock := Entry(f, InnerAmount)];
        dealt := dealt[f.stock := Entry(f, DealAmount)];
        price := price[f.stock := f.price];
        value := value[f.stock := Entry(f, TradeValue)];
        cost := cost[f.stock := Entry(f, TradeCost)];
        dir := dir[f.stock := Entry(f, TradeDir)];
      }
      assert fills[..|fills|] == fills;
      innerAmount, dealAmount, tradePrice, tradeValue, tradeCost, tradeDir := amount, dealt, price, value, cost, dir;
    }

    /** The price becomes the traded value, in place. */
    method TransferTraded()
      modifies `tradePrice
      ensures tradePrice == TradedColumn(old(Now()))
    {
      tradePrice := map k | k in dealAmount && k in tradePrice :: Times(dealAmount[k], tradePrice[k]);
    }

    /** Sets the metrics to the aggregate of the inner ones, whose prices it overwrites on the way. */
    method AggOrderTradeInfo(inner: seq<OrderIndicator>)
      requires this !in inner && forall i, j :: 0 <= i < j < |inner| ==> inner[i] != inner[j]
      modifies this, inner
      ensures Now() == Aggregate(old(AllNow(inner))) && base == old(base)
      ensures Transferred(AllNow(inner), old(AllNow(inner)))
      ensures forall o :: o in inner ==> o.base == old(o.base)
    {
      hide Aggregate, Transferred, AllNow, SameStocks;
      ghost var xs := AllNow(inner);
      TransferAll(inner);
      var x := SumInner(inner, xs);
      innerAmount, dealAmount, tradePrice := x.innerAmount, x.dealAmount, x.tradePrice;
      tradeValue, tradeCost, tradeDir := x.tradeValue, x.tradeCost, x.tradeDir;
    }

    /** Sets the base prices from those of the inner steps and the exchange's quotes for them. */
    method AggBasePrice(inner: seq<OrderIndicator>, quotes: seq<Quotes>)
      requires |inner| == |quotes| && this !in inner
      modifies `base
      ensures base == if tradeDir == map[] then old(base) else CombinedBase(BasesNow(inner, quotes, tradeDir))
    {
      hide WeightAt, VolumeAt, InnerBase, DirOf, MeanBase;
      if tradeDir == map[] {
        return;
      }
      var bases: seq<map<string, BaseQuote>> := [];
      var dirs := tradeDir;
      for i := 0 to |inner|
        modifies {}
        invariant |bases| == i
        invariant forall j :: 0 <= j < i ==> bases[j] == InnerBase(inner[j].base, quotes[j], dirs)
      {
        var one := OwnOrQuoted(inner[i].base, quotes[i], dirs);
        bases := bases + [one];
      }
      assert bases == BasesNow(inner, quotes, dirs);
      base := map k | k in BaseStocks(bases) :: MeanBase(WeightAt(bases, k), VolumeAt(bases, k));
      assert bases == BasesNow(inner, quotes, dirs);
    }
  }

  /** The base prices of one inner step: its own, or else the exchange's quotes. */
  method OwnOrQuoted(own: map<string, BaseQuote>, quoted: Quotes, dirs: Column) returns (base: map<string, BaseQuote>)
    ensures base == InnerBase(own, quoted, dirs)
  {
    hide DirOf;
    base := map k | k in dirs && ((k, DirOf(dirs, k)) in quoted || (k in own && own[k].price.Num?)) ::
      if k in own && own[k].price.Num? then own[k] else quoted[(k, DirOf(dirs, k))];
  }

  /** Every price of an inner step has become the traded value; all else is as before. */
  predicate Transferred(after: seq<Metrics>, before: seq<Metrics>) {
    |after| == |before| &&
    forall i :: 0 <= i < |after| ==> after[i] == before[i].(tradePrice := TradedColumn(before[i]))
  }

  method TransferAll(inner: seq<OrderIndicator>)
    requires forall i, j :: 0 <= i < j < |inner| ==> inner[i] != inner[j]
    modifies inner
    ensures forall o :: o in inner ==> o.base == old(o.base)
    ensures Transferred(AllNow(inner), old(AllNow(inner)))
  {
    ghost var xs := AllNow(inner);
    hide TradedColumn;
    for i := 0 to |inner|
      invariant forall j :: 0 <= j < i ==> inner[j].Now() == xs[j].(tradePrice := TradedColumn(xs[j]))
      invariant forall j :: i <= j < |inner| ==> inner[j].Now() == xs[j]
      invariant forall o :: o in inner ==> o.base == old(o.base)
    {
      inner[i].TransferTraded();
    }
  }

  method CollectStocks(inner: seq<OrderIndicator>) returns (stocks: set<string>)
    ensures stocks == StocksOf(AllNow(inner))
  {
    ghost var xs := AllNow(inner);
    stocks := {};
    for i := 0 to |inner|
      invariant stocks == StocksOf(xs[..i])
    {
      assert xs[..i + 1][i] == xs[i] && forall j :: 0 <= j < i ==> xs[..i + 1][j] == xs[..i][j];
      stocks := stocks + inner[i].innerAmount.Keys;
    }
    assert xs[..|inner|] == xs;
  }

  method SumMetric(
      inner: seq<OrderIndicator>, ghost before: seq<Metrics>, m: Metric, stocks: set<string>) returns (r: Column)
    requires Transferred(AllNow(inner), before) && stocks == StocksOf(before)
    ensures r == SumColumn(before, m)
  {
    hide SumAt, StocksOf;
    GatherColumns(inner, before, m);
    r := SumByIndex(Gather(inner, m), stocks);
  }

  lemma {:induction false} TransferKeepsStocks(after: seq<Metrics>, before: seq<Metrics>)
    requires Transferred(after, before)
    ensures StocksOf(after) == StocksOf(before)
  {
  }

  /** The sums of the inner metrics, the mean prices and the directions. */
  method SumInner(inner: seq<OrderIndicator>, ghost before: seq<Metrics>) returns (x: Metrics)
    requires Transferred(AllNow(inner), before)
    ensures x == Aggregate(before)
  {
    hide SumAt, StocksOf, PerAmounts, ParsedDirs, Columns, SumColumn, AllNow, Transferred, SameStocks;
    var stocks := CollectStocks(inner);
    TransferKeepsStocks(AllNow(inner), before);
    var amounts := SumMetric(inner, before, InnerAmount, stocks);
    var dealt := SumMetric(inner, before, DealAmount, stocks);
    var traded := SumMetric(inner, before, Traded, stocks);
    var values := SumMetric(inner, before, TradeValue, stocks);
    var costs := SumMetric(inner, before, TradeCost, stocks);
    var dirs := SumMetric(inner, before, TradeDir, stocks);
    x := Metrics(amounts, dealt, PerAmounts(traded, dealt), values, costs, ParsedDirs(dirs));
  }

  lemma {:induction false} StepOfNone()
    ensures StepMetrics([]) == NOTHING
  {
  }

  lemma {:induction false} StepOneMore(fills: seq<Fill>, i: nat)
    requires i < |fills|
    ensures fills[..0] == [] && StepMetrics(fills[..i + 1]) == Put(StepMetrics(fills[..i]), fills[i])
  {
    assert fills[..i + 1][..i] == fills[..i];
  }

  function AllNow(inner: seq<OrderIndicator>): (xs: seq<Metrics>)
    reads inner
    ensures |xs| == |inner| && forall i :: 0 <= i < |inner| ==> xs[i] == inner[i].Now()
  {
    seq(|inner|, i requires 0 <= i < |inner| reads inner => inner[i].Now())
  }

  /** The columns as they stand, with the traded value in the place of the price. */
  function Gather(inner: seq<OrderIndicator>, m: Metric): (cs: seq<Column>)
    reads inner
    ensures |cs| == |inner|
    ensures forall i :: 0 <= i < |inner| ==>
              cs[i] == if m == Traded then inner[i].tradePrice else ColumnOf(inner[i].Now(), m)
  {
    seq(|inner|, i requires 0 <= i < |inner| reads inner =>
          if m == Traded then inner[i].tradePrice else ColumnOf(inner[i].Now(), m))
  }

  /** After the transfer the gathered columns are those that the aggregate sums. */
  lemma {:induction false} GatherColumns(inner: seq<OrderIndicator>, before: seq<Metrics>, m: Metric)
    requires Transferred(AllNow(inner), before)
    ensures Gather(inner, m) == Columns(before, m)
  {
    hide TradedColumn;
    forall i | 0 <= i < |inner|
      ensures Gather(inner, m)[i] == Columns(before, m)[i]
    {
      assert AllNow(inner)[i] == before[i].(tradePrice := TradedColumn(before[i]));
    }
  }

  function BasesNow(inner: seq<OrderIndicator>, quotes: seq<Quotes>, dirs: Column)
    : (bases: seq<map<string, BaseQuote>>)
    requires |inner| == |quotes|
    reads inner
    ensures |bases| == |inner| && forall i :: 0 <= i < |inner| ==> bases[i] == InnerBase(inner[i].base, quotes[i], dirs)
  {
    seq(|inner|, i requires 0 <= i < |inner| reads inner => InnerBase(inner[i].base, quotes[i], dirs))
  }
}
