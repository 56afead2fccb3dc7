/** The account (quant_master/backtest/account.py): it books each trade into running totals of return,
    cost and turnover beside the position, and records one row of metrics per bar. */
module Account {
  import opened Common
  import opened Position
  import opened RealArith

  /** The position and the accumulated return, cost and turnover. */
  datatype Ledger = Ledger(pos: State, rtn: real, cost: real, turnover: real)

  datatype Booking = Booking(ledger: Ledger, error: Option<Error>)

  datatype Op =
    | Trade(dir: Direction, stock: string, tradeVal: real, fee: real, tradePrice: real)
    | Close(closes: map<string, real>)   // the closing prices of the stocks that are not suspended
    | Start(settle: SettleType)
    | Commit

  predicate ValidOp(op: Op) {
    op.Trade? ==> op.tradePrice > 0.0
  }

  predicate ValidOps(ops: seq<Op>) {
    forall i :: 0 <= i < |ops| ==> ValidOp(ops[i])
  }

  // ----- what the operations do -----

  /** The profit of a trade against the price the position carries. */
  function Profit(dir: Direction, price: real, tradeVal: real, tradePrice: real): real
    requires tradePrice > 0.0
  {
    if dir == SELL then tradeVal - price * Shares(tradeVal, tradePrice)
    else price * Shares(tradeVal, tradePrice) - tradeVal
  }

  /** Turnover and cost are booked before the position is asked for its price. */
  function BookTotals(l: Ledger, enabled: bool, op: Op): Booking
    requires op.Trade? && ValidOp(op)
  {
    if !enabled then Booking(l, None)
    else
      var paid := l.(turnover := l.turnover + op.tradeVal, cost := l.cost + op.fee);
      if op.stock !in l.pos.book then Booking(paid, Some(NotHeld))
      else
        var profit := Profit(op.dir, l.pos.book[op.stock].price, op.tradeVal, op.tradePrice);
        Booking(paid.(rtn := paid.rtn + profit), None)
  }

  /** A sell is booked before it changes the position, a buy after. */
  function BookTrade(l: Ledger, enabled: bool, op: Op): Booking
    requires op.Trade? && ValidOp(op) && ValidState(l.pos)
  {
    if op.dir == BUY then
      BookTotals(l.(pos := Buy(l.pos, op.stock, op.tradeVal, op.fee, op.tradePrice)), enabled, op)
    else
      var booked := BookTotals(l, enabled, op);
      if booked.error.Some? then booked
      else
        var sold := Sell(l.pos, op.stock, op.tradeVal, op.fee, op.tradePrice);
        Booking(booked.ledger.(pos := sold.state), sold.error)
  }

  function MarkAll(book: Book, closes: map<string, real>): Book {
    map k | k in book :: if k in closes then book[k].(price := closes[k]) else book[k]
  }

  function Apply(l: Ledger, enabled: bool, op: Op): Booking
    requires ValidOp(op) && ValidState(l.pos)
    ensures ValidState(Apply(l, enabled, op).ledger.pos)
  {
    match op
    case Trade(_, _, _, _, _) => BookTrade(l, enabled, op)
    case Close(closes) => Booking(l.(pos := l.pos.(book := MarkAll(l.pos.book, closes))), None)
    case Start(t) =>
      var r := SettleStart(l.pos, t);
      Booking(l.(pos := r.state), r.error)
    case Commit =>
      var r := SettleCommit(l.pos);
      Booking(l.(pos := r.state), r.error)
  }

  /** A run stops at the first operation that raises. */
  function Run(l: Ledger, enabled: bool, ops: seq<Op>): Booking
    requires ValidOps(ops) && ValidState(l.pos)
    ensures ValidState(Run(l, enabled, ops).ledger.pos)
    decreases |ops|
  {
    if ops == [] then Booking(l, None)
    else
      var r := Apply(l, enabled, ops[0]);
      if r.error.Some? then r else Run(r.ledger, enabled, ops[1..])
  }

  lemma {:induction false} RunAppend(l: Ledger, enabled: bool, a: seq<Op>, b: seq<Op>)
    requires ValidOps(a) && ValidOps(b) && ValidState(l.pos)
    ensures ValidOps(a + b)
    ensures Run(l, enabled, a).error == None ==> Run(l, enabled, a + b) == Run(Run(l, enabled, a).ledger, enabled, b)
    decreases |a|
  {
    hide Apply;
    if a == [] {
      assert a + b == b;
    } else {
      assert (a + b)[0] == a[0] && (a + b)[1..] == a[1..] + b;
      var next := Apply(l, enabled, a[0]);
      if next.error == None {
        RunAppend(next.ledger, enabled, a[1..], b);
      }
    }
  }

  // ----- conservation -----

  /** Each holding with the change of its price in place of the price. */
  function PriceMoves(book: Book, closes: map<string, real>): Book {
    map k | k in book :: book[k].(price := if k in closes then closes[k] - book[k].price else 0.0)
  }

  /** The sum of amount * (new close - old price) over the stocks that have a close. */
  ghost function MarkGain(book: Book, closes: map<string, real>): real {
    StockValue(PriceMoves(book, closes))
  }

  lemma {:induction false} MarkAllGains(book: Book, closes: map<string, real>)
    ensures StockValue(MarkAll(book, closes)) == StockValue(book) + MarkGain(book, closes)
    decreases |book|
  {
    hide StockValue;
    if book == map[] {
      assert MarkAll(book, closes) == map[] && PriceMoves(book, closes) == map[];
      EmptyBook();
    } else {
      var k :| k in book;
      var h, price := book[k], if k in closes then closes[k] else book[k].price;
      assert MarkAll(book, closes) - {k} == MarkAll(book - {k}, closes);
      assert PriceMoves(book, closes) - {k} == PriceMoves(book - {k}, closes);
      StockValueAt(book, k);
      StockValueAt(MarkAll(book, closes), k);
      StockValueAt(PriceMoves(book, closes), k);
      MarkAllGains(book - {k}, closes);
      assert h.amount * price == h.amount * h.price + h.amount * (price - h.price);
    }
  }

  lemma {:induction false} EmptyBook()
    ensures StockValue(map[]) == 0.0
  {
  }

  /** What one operation adds to the value beside return and cost: price moves of the holdings at a
      close, and what a sell's tolerances cut or drop. */
  ghost function Extra(l: Ledger, op: Op): real
    requires ValidOp(op)
  {
    match op
    case Trade(dir, stock, tradeVal, _, tradePrice) =>
      if dir == SELL then SellDrift(l.pos, stock, tradeVal, tradePrice) else 0.0
    case Close(closes) => MarkGain(l.pos.book, closes)
    case Start(_) => 0.0
    case Commit => 0.0
  }

  ghost function MarkGains(l: Ledger, ops: seq<Op>): real
    requires ValidOps(ops) && ValidState(l.pos)
    decreases |ops|
  {
    if ops == [] then 0.0
    else
      (if ops[0].Close? then Extra(l, ops[0]) else 0.0) + MarkGains(Apply(l, true, ops[0]).ledger, ops[1..])
  }

  ghost function Drifts(l: Ledger, ops: seq<Op>): real
    requires ValidOps(ops) && ValidState(l.pos)
    decreases |ops|
  {
    if ops == [] then 0.0
    else
      (if ops[0].Trade? then Extra(l, ops[0]) else 0.0) + Drifts(Apply(l, true, ops[0]).ledger, ops[1..])
  }

  lemma {:induction false} StepConserves(l: Ledger, op: Op)
    requires ValidOp(op) && ValidState(l.pos) && Apply(l, true, op).error == None
    ensures var l' := Apply(l, true, op).ledger;
            Value(l'.pos) - Value(l.pos) == (l'.rtn - l.rtn) - (l'.cost - l.cost) + Extra(l, op)
  {
    hide StockValue, Shares, SellDrift, Sell, MarkAll, PriceMoves, MarkGain;
    match op {
      case Trade(dir, stock, tradeVal, fee, tradePrice) =>
        if dir == BUY {
          BuyChangesValue(l.pos, stock, tradeVal, fee, tradePrice);
        } else {
          SellChangesValue(l.pos, stock, tradeVal, fee, tradePrice);
        }
      case Close(closes) => MarkAllGains(l.pos.book, closes);
      case Start(_) =>
      case Commit =>
    }
  }

  /** Over any run that raises nothing, the value of the position changes by the accumulated return less
      the accumulated cost, plus the price moves of the holdings, plus what sell tolerances cut or drop. */
  lemma {:induction false} RunConserves(l: Ledger, ops: seq<Op>)
    requires ValidOps(ops) && ValidState(l.pos) && Run(l, true, ops).error == None
    ensures var l' := Run(l, true, ops).ledger;
            Value(l'.pos) - Value(l.pos) ==
            (l'.rtn - l.rtn) - (l'.cost - l.cost) + MarkGains(l, ops) + Drifts(l, ops)
    decreases |ops|
  {
    if ops != [] {
      hide Apply, Value;
      StepConserves(l, ops[0]);
      RunConserves(Apply(l, true, ops[0]).ledger, ops[1..]);
    }
  }

  /** A sell the tolerances do not touch: no more than the holding, and not merely close to it. */
  predicate Exact(s: State, op: Op)
    requires ValidOp(op)
  {
    op.Trade? && op.dir == SELL && op.stock in s.book ==>
      var current, amount := s.book[op.stock].amount, Shares(op.tradeVal, op.tradePrice);
      amount <= current && (IsClose(current, amount) ==> amount == current)
  }

  /** A sell leaves the value's balance exact when the tolerances do not touch it, or when what they
      touch is worth nothing: a cut at the carried price, or a dropped residue at price zero. */
  lemma {:induction false} DriftFreeExactly(l: Ledger, op: Op)
    requires ValidOp(op) && op.Trade? && op.dir == SELL && op.stock in l.pos.book
    ensures var h, amount := l.pos.book[op.stock], Shares(op.tradeVal, op.tradePrice);
            Extra(l, op) == 0.0 <==>
            || Exact(l.pos, op)
            || (amount > h.amount && h.price == op.tradePrice)
            || (amount < h.amount && h.price == 0.0)
  {
    hide Shares, IsClose;
    var h, amount := l.pos.book[op.stock], Shares(op.tradeVal, op.tradePrice);
    ZeroProduct(amount - h.amount, h.price - op.tradePrice);
    ZeroProduct(-(h.amount - amount), h.price);
  }

  lemma {:induction false} ZeroProduct(a: real, b: real)
    ensures a * b == 0.0 <==> a == 0.0 || b == 0.0
  {
  }

  predicate AllExact(l: Ledger, ops: seq<Op>)
    requires ValidOps(ops) && ValidState(l.pos)
    decreases |ops|
  {
    ops == [] || (Exact(l.pos, ops[0]) && AllExact(Apply(l, true, ops[0]).ledger, ops[1..]))
  }

  /** Without such sells the books balance to the last digit. */
  lemma {:induction false} ExactRunConserves(l: Ledger, ops: seq<Op>)
    requires ValidOps(ops) && ValidState(l.pos) && Run(l, true, ops).error == None && AllExact(l, ops)
    ensures var l' := Run(l, true, ops).ledger;
            Value(l'.pos) - Value(l.pos) == (l'.rtn - l.rtn) - (l'.cost - l.cost) + MarkGains(l, ops)
  {
    RunConserves(l, ops);
    ExactRunHasNoDrift(l, ops);
  }

  lemma {:induction false} ExactRunHasNoDrift(l: Ledger, ops: seq<Op>)
    requires ValidOps(ops) && ValidState(l.pos) && AllExact(l, ops)
    ensures Drifts(l, ops) == 0.0
    decreases |ops|
  {
    if ops != [] {
      hide Apply;
      ExactRunHasNoDrift(Apply(l, true, ops[0]).ledger, ops[1..]);
      if ops[0].Trade? && ops[0].dir == SELL && ops[0].stock in l.pos.book {
        DriftFreeExactly(l, ops[0]);
      }
    }
  }

  /** A sell of more than the position accepts is booked all the same: the totals stay what they were only
      when nothing is booked at all. */
  lemma {:induction false} RejectedSellIsBooked(l: Ledger, enabled: bool, op: Op)
    requires ValidOp(op) && ValidState(l.pos) && op.Trade? && op.dir == SELL && op.stock in l.pos.book
    requires l.pos.book[op.stock].amount >= 0.0
    requires var held := l.pos.book[op.stock].amount;
             op.tradeVal > (held + OversellTolerance(held)) * op.tradePrice
    ensures var r := BookTrade(l, enabled, op);
            && r.error == Some(Oversold) && r.ledger.pos == l.pos
            && (r.ledger == l <==> !enabled)
            && (enabled ==> r.ledger.cost == l.cost + op.fee && r.ledger.turnover == l.turnover + op.tradeVal
                            && r.ledger.turnover > l.turnover)
  {
    var h := l.pos.book[op.stock];
    var limit := h.amount + OversellTolerance(h.amount);
    assert limit > 0.0;
    BeyondLimit(limit, op.tradeVal, op.tradePrice);
    assert SellAmount(h.amount, Shares(op.tradeVal, op.tradePrice)) == None;
    hide Shares, SellAmount, OversellTolerance;
  }

  lemma {:induction false} BeyondLimit(limit: real, tradeVal: real, tradePrice: real)
    requires tradePrice > 0.0 && limit > 0.0 && tradeVal > limit * tradePrice
    ensures Shares(tradeVal, tradePrice) > limit && tradeVal > 0.0
  {
    BelowQuotient(limit, tradePrice, tradeVal);
    ProductSign(limit, tradePrice);
  }

  predicate NoShorts(s: State) {
    forall k :: k in s.book ==> s.book[k].amount >= 0.0
  }

  predicate NonNegativeTrades(ops: seq<Op>) {
    forall i :: 0 <= i < |ops| && ops[i].Trade? ==> ops[i].tradeVal >= 0.0
  }

  /** No run of trades, closes and settlements, rejected sells included, ever makes a holding negative
      or reaches the error for one. */
  lemma {:induction false} RunNeverShort(l: Ledger, enabled: bool, ops: seq<Op>)
    requires ValidOps(ops) && ValidState(l.pos) && NoShorts(l.pos) && NonNegativeTrades(ops)
    ensures var r := Run(l, enabled, ops);
            NoShorts(r.ledger.pos) && r.error != Some(NegativeRest)
    decreases |ops|
  {
    if ops != [] {
      StepNeverShort(l, enabled, ops[0]);
      hide Apply, NoShorts;
      var r := Apply(l, enabled, ops[0]);
      assert NonNegativeTrades(ops[1..]) by {
        assert forall i :: 0 <= i < |ops| - 1 ==> ops[1..][i] == ops[i + 1];
      }
      if r.error == None {
        RunNeverShort(r.ledger, enabled, ops[1..]);
      }
    }
  }

  lemma {:induction false} StepNeverShort(l: Ledger, enabled: bool, op: Op)
    requires ValidOp(op) && ValidState(l.pos) && NoShorts(l.pos) && (op.Trade? ==> op.tradeVal >= 0.0)
    ensures var r := Apply(l, enabled, op);
            NoShorts(r.ledger.pos) && r.error != Some(NegativeRest)
  {
    if op.Trade? && op.dir == SELL {
      hide Sell;
      SellNeverNegative(l.pos, op.stock, op.tradeVal, op.fee, op.tradePrice);
    } else if op.Trade? {
      assert Shares(op.tradeVal, op.tradePrice) >= 0.0;
    }
  }

  // ----- settlement -----

  /** The same account, but with a part of the cash still to be settled. */
  predicate Delayed(l: Ledger, l': Ledger) {
    && l.pos.settle == NoSettle && l.pos.cashDelay == None
    && l'.pos.settle == CashSettle && l'.pos.cashDelay.Some?
    && l'.pos.cash + l'.pos.cashDelay.value == l.pos.cash
    && l' == l.(pos := l'.pos) && l'.pos.book == l.pos.book
  }

  /** Trades and closing prices only. */
  predicate Unsettling(ops: seq<Op>) {
    forall i :: 0 <= i < |ops| ==> ops[i].Trade? || ops[i].Close?
  }

  lemma {:induction false} StepDelayed(l: Ledger, l': Ledger, enabled: bool, op: Op)
    requires ValidOp(op) && (op.Trade? || op.Close?) && Delayed(l, l')
    ensures Apply(l, enabled, op).error == Apply(l', enabled, op).error
    ensures Apply(l, enabled, op).error == None ==>
              Delayed(Apply(l, enabled, op).ledger, Apply(l', enabled, op).ledger)
  {
    hide Shares, IsClose, SellAmount, SellValue, MarkAll, Profit;
  }

  lemma {:induction false} RunDelayed(l: Ledger, l': Ledger, enabled: bool, ops: seq<Op>)
    requires ValidOps(ops) && Unsettling(ops) && Delayed(l, l')
    ensures Run(l, enabled, ops).error == Run(l', enabled, ops).error
    ensures Run(l, enabled, ops).error == None ==>
              Delayed(Run(l, enabled, ops).ledger, Run(l', enabled, ops).ledger)
    decreases |ops|
  {
    if ops != [] {
      StepDelayed(l, l', enabled, ops[0]);
      hide Apply;
      var next, next' := Apply(l, enabled, ops[0]), Apply(l', enabled, ops[0]);
      if next.error == None {
        assert forall i :: 0 <= i < |ops| - 1 ==> ops[1..][i] == ops[i + 1];
        RunDelayed(next.ledger, next'.ledger, enabled, ops[1..]);
      }
    }
  }

  /** Trading inside a cash settlement only delays the cash of the sells: once it is committed, the account is
      the same as without one. */
  lemma {:induction false} SettlementOnlyDelays(l: Ledger, enabled: bool, ops: seq<Op>)
    requires ValidOps(ops) && Unsettling(ops) && l.pos.settle == NoSettle && l.pos.cashDelay == None
    ensures ValidOps([Start(CashSettle)] + ops + [Commit])
    ensures Run(l, enabled, ops).error == None ==>
              Run(l, enabled, [Start(CashSettle)] + ops + [Commit]) == Run(l, enabled, ops)
  {
    var settled := [Start(CashSettle)] + ops + [Commit];
    var l' := Apply(l, enabled, Start(CashSettle)).ledger;
    assert Delayed(l, l');
    RunDelayed(l, l', enabled, ops);
    assert settled[0] == Start(CashSettle) && settled[1..] == ops + [Commit];
    var end := Run(l', enabled, ops);
    assert end.error == None ==> Run(end.ledger, enabled, [Commit]) == Apply(end.ledger, enabled, Commit) by {
      assert [Commit][1..] == [];
      assert Apply(end.ledger, enabled, Commit).error == None ==>
               Run(Apply(end.ledger, enabled, Commit).ledger, enabled, []) ==
               Booking(Apply(end.ledger, enabled, Commit).ledger, None);
    }
    RunAppend(l', enabled, ops, [Commit]);
  }

  // ----- the metrics of each bar -----

  datatype Row = Row(account: real, ret: real, totalTurnover: real, turnover: real,
                     totalCost: real, cost: real, stockValue: real, cash: real)

  /** One row per bar start, and the start recorded last. */
  datatype Metrics = Metrics(rows: map<int, Row>, latest: int)

  predicate ValidMetrics(m: Metrics) {
    m.rows != map[] ==> m.latest in m.rows
  }

  function LastAccount(m: Metrics, initCash: real): real
    requires ValidMetrics(m)
  {
    if m.rows == map[] then initCash else m.rows[m.latest].account
  }

  function LastCost(m: Metrics): real
    requires ValidMetrics(m)
  {
    if m.rows == map[] then 0.0 else m.rows[m.latest].totalCost
  }

  function LastTurnover(m: Metrics): real
    requires ValidMetrics(m)
  {
    if m.rows == map[] then 0.0 else m.rows[m.latest].totalTurnover
  }

  /** The row of a bar; the rates are relative to the account value of the bar before. */
  ghost function NewRow(m: Metrics, initCash: real, l: Ledger): Row
    requires ValidMetrics(m) && LastAccount(m, initCash) != 0.0
  {
    var before := LastAccount(m, initCash);
    var earning, cost := Value(l.pos) - before, l.cost - LastCost(m);
    Row(Value(l.pos), (earning + cost) / before, l.turnover, (l.turnover - LastTurnover(m)) / before,
        l.cost, cost / before, StockValue(l.pos.book), l.pos.cash)
  }

  datatype Bar = Bar(time: int, ops: seq<Op>)

  datatype Session = Session(ledger: Ledger, metrics: Metrics)

  /** A run of bars; None when an operation raises or a rate would divide by zero. */
  ghost function RunBars(l: Ledger, initCash: real, bars: seq<Bar>): (r: Option<Session>)
    requires ValidState(l.pos) && forall i :: 0 <= i < |bars| ==> ValidOps(bars[i].ops)
    ensures r.Some? ==> ValidState(r.value.ledger.pos) && ValidMetrics(r.value.metrics)
  {
    if bars == [] then Some(Session(l, Metrics(map[], 0)))
    else
      var n := |bars| - 1;
      match RunBars(l, initCash, bars[..n])
      case None => None
      case Some(before) =>
        var traded := Run(before.ledger, true, bars[n].ops);
        if traded.error.Some? || LastAccount(before.metrics, initCash) == 0.0 then None
        else
          var row := NewRow(before.metrics, initCash, traded.ledger);
          Some(Session(traded.ledger, Metrics(before.metrics.rows[bars[n].time := row], bars[n].time)))
  }

  /** The columns that are relative to the account value of the bar before. */
  datatype RateColumn = ReturnRate | TurnoverRate | CostRate

  function RateIn(row: Row, rate: RateColumn): real {
    match rate
    case ReturnRate => row.ret
    case TurnoverRate => row.turnover
    case CostRate => row.cost
  }

  /** A rate times the account value it is relative to. */
  function Part(row: Row, rate: RateColumn, base: real): real {
    RateIn(row, rate) * base
  }

  /** The recorded rates, each times the account value it is relative to. */
  function Weighted(rows: map<int, Row>, initCash: real, bars: seq<Bar>, rate: RateColumn): real
    requires forall i :: 0 <= i < |bars| ==> bars[i].time in rows
  {
    if bars == [] then 0.0
    else
      var n := |bars| - 1;
      Weighted(rows, initCash, bars[..n], rate) +
      Part(rows[bars[n].time], rate, if n == 0 then initCash else rows[bars[n - 1].time].account)
  }

  predicate Increasing(bars: seq<Bar>) {
    forall i, j :: 0 <= i < j < |bars| ==> bars[i].time < bars[j].time
  }

  predicate Recorded(rows: map<int, Row>, bars: seq<Bar>) {
    && (forall i :: 0 <= i < |bars| ==> bars[i].time in rows)
    && (forall t :: t in rows ==> exists i :: 0 <= i < |bars| && bars[i].time == t)
  }

  lemma {:induction false} WeightedFrame(
    rows: map<int, Row>, t: int, row: Row, initCash: real, bars: seq<Bar>, rate: RateColumn)
    requires forall i :: 0 <= i < |bars| ==> bars[i].time in rows && bars[i].time != t
    ensures Weighted(rows[t := row], initCash, bars, rate) == Weighted(rows, initCash, bars, rate)
    decreases |bars|
  {
    if bars != [] {
      WeightedFrame(rows, t, row, initCash, bars[..|bars| - 1], rate);
    }
  }

  /** What the rates sum to when each is weighted by the account value it is relative to. */
  function TotalRate(m: Metrics, initCash: real, rate: RateColumn): real
    requires ValidMetrics(m)
  {
    match rate
    case ReturnRate => LastAccount(m, initCash) - initCash + LastCost(m)
    case TurnoverRate => LastTurnover(m)
    case CostRate => LastCost(m)
  }

  /** The sums agree with the rows of the first bars. */
  ghost predicate Telescoped(m: Metrics, initCash: real, bars: seq<Bar>) {
    && ValidMetrics(m)
    && Recorded(m.rows, bars)
    && (bars != [] ==> m.latest == bars[|bars| - 1].time)
    && forall rate :: Weighted(m.rows, initCash, bars, rate) == TotalRate(m, initCash, rate)
  }

  lemma {:induction false} RowBalance(m: Metrics, initCash: real, l: Ledger, rate: RateColumn)
    requires ValidMetrics(m) && LastAccount(m, initCash) != 0.0
    ensures var row, before := NewRow(m, initCash, l), LastAccount(m, initCash);
            Part(row, rate, before) ==
            match rate
            case ReturnRate => row.account - before + row.totalCost - LastCost(m)
            case TurnoverRate => row.totalTurnover - LastTurnover(m)
            case CostRate => row.totalCost - LastCost(m)
  {
    hide Value, StockValue;
  }

  lemma {:induction false} RecordStep(m: Metrics, initCash: real, l: Ledger, bars: seq<Bar>)
    requires bars != [] && Increasing(bars) && Telescoped(m, initCash, bars[..|bars| - 1])
    requires LastAccount(m, initCash) != 0.0
    ensures var t := bars[|bars| - 1].time;
            Telescoped(Metrics(m.rows[t := NewRow(m, initCash, l)], t), initCash, bars)
  {
    var n := |bars| - 1;
    var t, row := bars[n].time, NewRow(m, initCash, l);
    var m' := Metrics(m.rows[t := row], t);
    assert forall i :: 0 <= i < n ==> bars[..n][i] == bars[i] && bars[i].time != t;
    RecordedStep(m.rows, row, bars);
    hide Value, Increasing;
    forall rate
      ensures Weighted(m'.rows, initCash, bars, rate) == TotalRate(m', initCash, rate)
    {
      RowBalance(m, initCash, l, rate);
      hide NewRow, Recorded, Part;
      WeightedFrame(m.rows, t, row, initCash, bars[..n], rate);
      assert Weighted(m'.rows, initCash, bars, rate) ==
             Weighted(m.rows, initCash, bars[..n], rate) + Part(row, rate, LastAccount(m, initCash));
    }
  }

  lemma {:induction false} RecordedStep(rows: map<int, Row>, row: Row, bars: seq<Bar>)
    requires bars != [] && Recorded(rows, bars[..|bars| - 1])
    ensures Recorded(rows[bars[|bars| - 1].time := row], bars)
  {
    var n := |bars| - 1;
    var after := rows[bars[n].time := row];
    forall i | 0 <= i < |bars|
      ensures bars[i].time in after
    {
      if i < n {
        assert bars[..n][i] == bars[i];
      }
    }
    forall t | t in after
      ensures exists i :: 0 <= i < |bars| && bars[i].time == t
    {
      if t == bars[n].time {
      } else {
        var i :| 0 <= i < n && bars[..n][i].time == t;
        assert bars[i].time == t;
      }
    }
  }

  /** The recorded rates telescope: weighted by the account values they are relative to, the returns sum to
      the last account value less the initial cash plus the total cost, the turnover and the cost rates to
      the total turnover and the total cost. */
  lemma {:induction false} ReturnsTelescope(l: Ledger, initCash: real, bars: seq<Bar>)
    requires ValidState(l.pos) && forall i :: 0 <= i < |bars| ==> ValidOps(bars[i].ops)
    requires Increasing(bars) && RunBars(l, initCash, bars).Some?
    ensures var s := RunBars(l, initCash, bars).value;
            && Telescoped(s.metrics, initCash, bars)
            && (bars != [] ==>
                  && LastAccount(s.metrics, initCash) == Value(s.ledger.pos)
                  && LastCost(s.metrics) == s.ledger.cost
                  && LastTurnover(s.metrics) == s.ledger.turnover)
    decreases |bars|
  {
    if bars != [] {
      hide Value, Run, Telescoped, ValidOps;
      var n := |bars| - 1;
      ReturnsTelescope(l, initCash, bars[..n]);
      var before := RunBars(l, initCash, bars[..n]).value;
      RecordStep(before.metrics, initCash, Run(before.ledger, true, bars[n].ops).ledger, bars);
    }
  }

  /** A row shows the account as it stands: its value, which is that of the stocks, the cash and the delayed
      cash together, and its totals. */
  ghost predicate Shows(row: Row, l: Ledger) {
    && row.account == row.stockValue + row.cash + (if l.pos.cashDelay.Some? then l.pos.cashDelay.value else 0.0)
    && row.account == Value(l.pos) && row.cash == l.pos.cash
    && row.totalTurnover == l.turnover && row.totalCost == l.cost
  }

  /** Whatever is recorded later, the row of a bar shows the account as it stood at the end of that bar. */
  lemma {:induction false} RowsShowTheirBars(l: Ledger, initCash: real, bars: seq<Bar>, i: nat)
    requires ValidState(l.pos) && forall j :: 0 <= j < |bars| ==> ValidOps(bars[j].ops)
    requires Increasing(bars) && i < |bars| && RunBars(l, initCash, bars).Some?
    ensures RunBars(l, initCash, bars[..i + 1]).Some?
    ensures var rows := RunBars(l, initCash, bars).value.metrics.rows;
            && bars[i].time in rows
            && Shows(rows[bars[i].time], RunBars(l, initCash, bars[..i + 1]).value.ledger)
    decreases |bars|
  {
    hide Run, ValidOps, StockValue;
    var n := |bars| - 1;
    if i < n {
      RowsShowTheirBars(l, initCash, bars[..n], i);
      assert bars[..n][..i + 1] == bars[..i + 1];
      assert bars[i].time < bars[n].time;
    } else {
      assert bars[..i + 1] == bars;
    }
  }

  /** The operations of all bars in order. */
  function AllOps(bars: seq<Bar>): (r: seq<Op>)
    requires forall i :: 0 <= i < |bars| ==> ValidOps(bars[i].ops)
    ensures ValidOps(r)
  {
    if bars == [] then []
    else
      var before, last := AllOps(bars[..|bars| - 1]), bars[|bars| - 1].ops;
      assert ValidOps(last);
      before + last
  }

  lemma {:induction false} BarsRunTheirOps(l: Ledger, initCash: real, bars: seq<Bar>)
    requires ValidState(l.pos) && forall i :: 0 <= i < |bars| ==> ValidOps(bars[i].ops)
    requires RunBars(l, initCash, bars).Some?
    ensures Run(l, true, AllOps(bars)) == Booking(RunBars(l, initCash, bars).value.ledger, None)
    decreases |bars|
  {
    if bars != [] {
      hide ValidOps, Value;
      var n := |bars| - 1;
      BarsRunTheirOps(l, initCash, bars[..n]);
      RunAppend(l, true, AllOps(bars[..n]), bars[n].ops);
    }
  }

  /** What the return column reports over a whole run: the booked trading return plus the price moves of
      the holdings (and what sell tolerances cut or drop), when the run starts from unbooked cash. */
  lemma {:induction false} ReturnsAreEarnings(l: Ledger, initCash: real, bars: seq<Bar>)
    requires ValidState(l.pos) && forall i :: 0 <= i < |bars| ==> ValidOps(bars[i].ops)
    requires Increasing(bars) && bars != [] && RunBars(l, initCash, bars).Some?
    requires Value(l.pos) == initCash && l.cost == 0.0 && l.rtn == 0.0
    ensures var s := RunBars(l, initCash, bars).value;
            && Recorded(s.metrics.rows, bars)
            && Weighted(s.metrics.rows, initCash, bars, ReturnRate) ==
                 s.ledger.rtn + MarkGains(l, AllOps(bars)) + Drifts(l, AllOps(bars))
  {
    hide Value, RunBars, Run, MarkGains, Drifts, AllOps;
    ReturnsTelescope(l, initCash, bars);
    BarsRunTheirOps(l, initCash, bars);
    RunConserves(l, AllOps(bars));
  }

  // ----- the objects -----

  class AccumulatedInfo {
    var rtn: real
    var cost: real
    var turnover: real

    constructor ()
      ensures rtn == 0.0 && cost == 0.0 && turnover == 0.0
    {
      rtn, cost, turnover := 0.0, 0.0, 0.0;
    }

    method AddReturnValue(value: real)
      modifies `rtn
      ensures rtn == old(rtn) + value
    {
      rtn := rtn + value;
    }

    method AddCost(value: real)
      modifies `cost
      ensures cost == old(cost) + value
    {
      cost := cost + value;
    }

    method AddTurnover(value: real)
      modifies `turnover
      ensures turnover == old(turnover) + value
    {
      turnover := turnover + value;
    }
  }

  /** The position and the totals are objects of their own, shared by the accounts of nested levels. */
  class Account {
    var position: Position
    var accum: AccumulatedInfo
    var enabled: bool
    var initCash: real
    var metrics: Metrics

    constructor (initCash: real, book: Book, enabled: bool)
      ensures fresh(position) && fresh(accum)
      ensures Now() == Ledger(State(book, initCash, None, NoSettle), 0.0, 0.0, 0.0)
      ensures this.enabled == enabled && this.initCash == initCash && metrics.rows == map[]
    {
      position := new Position(initCash, book);
      accum := new AccumulatedInfo();
      this.enabled, this.initCash, metrics := enabled, initCash, Metrics(map[], 0);
    }

    function Now(): Ledger
      reads this, position, accum
    {
      Ledger(position.Now(), accum.rtn, accum.cost, accum.turnover)
    }

    method UpdateStateFromOrder(op: Op) returns (error: Option<Error>)
      requires op.Trade? && ValidOp(op)
      modifies accum
      ensures Booking(Now(), error) == BookTotals(old(Now()), enabled, op)
    {
      error := None;
      if enabled {
        accum.AddTurnover(op.tradeVal);
        accum.AddCost(op.fee);
        if op.stock !in position.book {
          return Some(NotHeld);
        }
        var amount := Shares(op.tradeVal, op.tradePrice);
        var price := position.book[op.stock].price;
        var profit := if op.dir == SELL then op.tradeVal - price * amount else price * amount - op.tradeVal;
        assert profit == Profit(op.dir, price, op.tradeVal, op.tradePrice);
        accum.AddReturnValue(profit);
      }
    }

    method UpdateOrder(op: Op) returns (error: Option<Error>)
      requires op.Trade? && ValidOp(op) && ValidState(position.Now())
      modifies accum, position
      ensures Booking(Now(), error) == BookTrade(old(Now()), enabled, op)
    {
      if op.dir == SELL {
        error := UpdateStateFromOrder(op);
        if error == None {
          error := position.SellStock(op.stock, op.tradeVal, op.fee, op.tradePrice);
        }
      } else {
        position.BuyStock(op.stock, op.tradeVal, op.fee, op.tradePrice);
        error := UpdateStateFromOrder(op);
      }
    }

    /** At the end of a bar every holding that is not suspended takes its close. */
    method UpdateCurrentPosition(closes: map<string, real>)
      modifies position`book
      ensures position.book == MarkAll(old(position.book), closes)
    {
      ghost var start := position.book;
      var left := position.book.Keys;
      while left != {}
        modifies position`book
        invariant left <= start.Keys && position.book.Keys == start.Keys
        invariant forall k :: k in start ==>
                    position.book[k] == if k in left then start[k] else MarkAll(start, closes)[k]
        decreases |left|
      {
        var k :| k in left;
        if k in closes {
          var error := position.UpdateStockPrice(k, closes[k]);
        }
        left := left - {k};
      }
    }

    method UpdatePortfolioMetrics(time: int) returns (divisionByZero: bool)
      requires ValidMetrics(metrics)
      modifies `metrics
      ensures ValidMetrics(metrics)
      ensures divisionByZero == (LastAccount(old(metrics), initCash) == 0.0)
      ensures divisionByZero ==> metrics == old(metrics)
      ensures !divisionByZero ==>
                metrics == Metrics(old(metrics).rows[time := NewRow(old(metrics), initCash, Now())], time)
    {
      var lastAccount, lastCost, lastTurnover := initCash, 0.0, 0.0;
      if metrics.rows != map[] {
        var last := metrics.rows[metrics.latest];
        lastAccount, lastCost, lastTurnover := last.account, last.totalCost, last.totalTurnover;
      }
      if lastAccount == 0.0 {
        return true;
      }
      var account := position.CalculateValue();
      var stockValue := position.CalculateStockValue();
      var earning, cost, turnover := account - lastAccount, accum.cost - lastCost, accum.turnover - lastTurnover;
      var row := Row(account, (earning + cost) / lastAccount, accum.turnover, turnover / lastAccount,
                     accum.cost, cost / lastAccount, stockValue, position.cash);
      metrics := Metrics(metrics.rows[time := row], time);
      divisionByZero := false;
    }
  }
}
