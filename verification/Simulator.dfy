/** The simulating executor (SimulatorExecutor in quant_master/backtest/executor.py): it deals the orders
    of a step one after the other and counts what has been dealt of each stock today. */
module Simulator {
  import opened Common
  import opened Position
  import opened Account
  import opened Exchange
  import opened RealArith

  /** The ledger, the amounts dealt today, and the day they belong to. */
  datatype SimState = SimState(ledger: Ledger, dealt: map<string, real>, day: Option<int>)

  /** An order submitted on a day, the end of a bar, where the holdings take their closes, or the start or
      end of a settlement around a step. */
  datatype Event =
    | Submit(day: int, ask: Ask)
    | BarEnd(closes: map<string, real>)
    | SettleOpen(settle: SettleType)
    | SettleEnd

  datatype Fill = Fill(stock: string, day: int, amount: real, val: real, fee: real)

  datatype Ran = Ran(state: SimState, fills: seq<Fill>, error: Option<DealError>)

  predicate ValidEvents(events: seq<Event>) {
    forall i :: 0 <= i < |events| && events[i].Submit? ==> ValidAsk(events[i].ask)
  }

  function DealtOf(dealt: map<string, real>, stock: string): real {
    if stock in dealt then dealt[stock] else 0.0
  }

  /** The counter starts over on the first order of a later day. */
  function OpenDay(s: SimState, day: int): SimState {
    if s.day == None || day > s.day.value then s.(dealt := map[], day := Some(day)) else s
  }

  function Booked(s: SimState, b: Booking): Ran {
    Ran(s.(ledger := b.ledger), [], if b.error.Some? then Some(Rejected(b.error.value)) else None)
  }

  function Step(r: Rules, enabled: bool, s: SimState, e: Event): (ran: Ran)
    requires ValidRules(r) && (e.Submit? ==> ValidAsk(e.ask)) && ValidState(s.ledger.pos)
    ensures ValidState(ran.state.ledger.pos)
  {
    match e
    case BarEnd(closes) => Booked(s, Apply(s.ledger, enabled, Close(closes)))
    case SettleOpen(t) => Booked(s, Apply(s.ledger, enabled, Start(t)))
    case SettleEnd => Booked(s, Apply(s.ledger, enabled, Commit))
    case Submit(day, a) =>
      var today := OpenDay(s, day);
      var before := DealtOf(today.dealt, a.stock);
      var d := DealOrder(r, enabled, s.ledger, a, before);
      if d.error.Some? then Ran(today.(ledger := d.ledger), [], d.error)
      else
        Ran(SimState(d.ledger, today.dealt[a.stock := before + d.amount], today.day),
            [Fill(a.stock, day, d.amount, d.val, d.fee)], None)
  }

  function Simulate(r: Rules, enabled: bool, s: SimState, events: seq<Event>): (ran: Ran)
    requires ValidRules(r) && ValidEvents(events) && ValidState(s.ledger.pos)
    ensures ValidState(ran.state.ledger.pos)
    decreases |events|
  {
    if events == [] then Ran(s, [], None)
    else
      var first := Step(r, enabled, s, events[0]);
      if first.error.Some? then first
      else
        var rest := Simulate(r, enabled, first.state, events[1..]);
        Ran(rest.state, first.fills + rest.fills, rest.error)
  }

  /** Two runs one after the other, the second from where the first ends. */
  lemma {:induction false} SimulateAppend(r: Rules, enabled: bool, s: SimState, a: seq<Event>, b: seq<Event>)
    requires ValidRules(r) && ValidEvents(a) && ValidEvents(b) && ValidState(s.ledger.pos)
    ensures ValidEvents(a + b)
    ensures var first := Simulate(r, enabled, s, a);
            Simulate(r, enabled, s, a + b) ==
            if first.error.Some? then first
            else
              var rest := Simulate(r, enabled, first.state, b);
              Ran(rest.state, first.fills + rest.fills, rest.error)
    decreases |a|
  {
    hide Step;
    if a == [] {
      assert a + b == b;
    } else {
      assert (a + b)[0] == a[0] && (a + b)[1..] == a[1..] + b;
      var first := Step(r, enabled, s, a[0]);
      if first.error == None {
        SimulateAppend(r, enabled, first.state, a[1..], b);
      }
    }
  }

  // ----- conservation -----

  /** The account's operations behind an event; an order of no tradable stock, or of a negligible value,
      does nothing. */
  function OpsOf(r: Rules, enabled: bool, s: SimState, e: Event): (ops: seq<Op>)
    requires ValidRules(r) && (e.Submit? ==> ValidAsk(e.ask)) && ValidState(s.ledger.pos)
    ensures ValidOps(ops) && |ops| <= 1
  {
    match e
    case BarEnd(closes) => [Close(closes)]
    case SettleOpen(t) => [Start(t)]
    case SettleEnd => [Commit]
    case Submit(day, a) =>
      var dealt := DealtOf(OpenDay(s, day).dealt, a.stock);
      var d := DealOrder(r, enabled, s.ledger, a, dealt);
      if a.quote.tradable && d.error == None && d.val > 0.00001 then
        [Trade(a.dir, a.stock, d.val, d.fee, a.quote.price)]
      else []
  }

  function RunOps(r: Rules, enabled: bool, s: SimState, events: seq<Event>): (ops: seq<Op>)
    requires ValidRules(r) && ValidEvents(events) && ValidState(s.ledger.pos)
    ensures ValidOps(ops)
    decreases |events|
  {
    if events == [] then []
    else
      OpsOf(r, enabled, s, events[0]) + RunOps(r, enabled, Step(r, enabled, s, events[0]).state, events[1..])
  }

  lemma {:induction false} StepIsRun(r: Rules, enabled: bool, s: SimState, e: Event)
    requires ValidRules(r) && (e.Submit? ==> ValidAsk(e.ask)) && ValidState(s.ledger.pos)
    requires Step(r, enabled, s, e).error == None
    ensures Run(s.ledger, enabled, OpsOf(r, enabled, s, e)) == Booking(Step(r, enabled, s, e).state.ledger, None)
  {
    hide DealAmount, Fee, Rate, Val, BookTrade;
    var ops := OpsOf(r, enabled, s, e);
    if ops != [] {
      assert ops[1..] == [];
      if e.Submit? {
        assert Apply(s.ledger, enabled, ops[0]) == BookTrade(s.ledger, enabled, ops[0]);
      }
    }
  }

  /** A simulated run that raises nothing is a run of the account's operations. */
  lemma {:induction false} SimulationIsRun(r: Rules, enabled: bool, s: SimState, events: seq<Event>)
    requires ValidRules(r) && ValidEvents(events) && ValidState(s.ledger.pos)
    requires Simulate(r, enabled, s, events).error == None
    ensures Run(s.ledger, enabled, RunOps(r, enabled, s, events)) ==
            Booking(Simulate(r, enabled, s, events).state.ledger, None)
    decreases |events|
  {
    hide Step, OpsOf, Apply;
    if events != [] {
      var next := Step(r, enabled, s, events[0]).state;
      StepIsRun(r, enabled, s, events[0]);
      SimulationIsRun(r, enabled, next, events[1..]);
      RunAppend(s.ledger, enabled, OpsOf(r, enabled, s, events[0]), RunOps(r, enabled, next, events[1..]));
    }
  }

  /** So it conserves the value: what changes is the accumulated return less the cost, plus the price moves
      of the holdings and what sell tolerances cut or drop. */
  lemma {:induction false} SimulationConserves(r: Rules, s: SimState, events: seq<Event>)
    requires ValidRules(r) && ValidEvents(events) && ValidState(s.ledger.pos)
    requires Simulate(r, true, s, events).error == None
    ensures var l, l', ops := s.ledger, Simulate(r, true, s, events).state.ledger, RunOps(r, true, s, events);
            Value(l'.pos) - Value(l.pos) ==
            (l'.rtn - l.rtn) - (l'.cost - l.cost) + MarkGains(l, ops) + Drifts(l, ops)
  {
    hide Simulate, RunOps, Run, Value, MarkGains, Drifts;
    SimulationIsRun(r, true, s, events);
    RunConserves(s.ledger, RunOps(r, true, s, events));
  }

  // ----- cash safety -----

  /** How far below zero one order may take the cash. */
  function Allowance(r: Rules, a: Ask, dealt: real): real
    requires ValidRules(r) && ValidAsk(a)
  {
    if a.dir == BUY then Overshoot(Slack(r, a), a.quote.price, Rate(r, a, dealt))
    else Val(Slack(r, a), a.quote.price)
  }

  predicate WithinHolding(s: State, a: Ask) {
    a.dir == SELL ==> a.amount <= HolderOf(s, a.stock).amount
  }

  lemma {:induction false} ClipRange(a: Ask, dealt: real)
    requires a.amount >= 0.0
    ensures 0.0 <= ClipByVolume(a.amount, Limits(a), dealt).amount <= a.amount
  {
  }

  lemma {:induction false} ValShares(d: real, price: real)
    requires price > 0.0
    ensures Shares(Val(d, price), price) == d && Val(0.0, price) == 0.0
  {
  }

  /** A buy takes the cash below zero by no more than the rounding slack costs, and not at all further
      when it is below zero already. */
  lemma {:induction false} BuyKeepsCash(r: Rules, enabled: bool, l: Ledger, a: Ask, dealt: real)
    requires ValidRules(r) && ValidAsk(a) && ValidState(l.pos) && a.dir == BUY
    ensures var after := DealOrder(r, enabled, l, a, dealt).ledger.pos;
            && after.settle == l.pos.settle
            && (after.cash == l.pos.cash || (l.pos.cash >= 0.0 && after.cash >= -Allowance(r, a, dealt)))
  {
    hide Val, FeeOn, BuyDeal, ClipByVolume, CostRatio, Overshoot, Slack, Shares;
    ClipRange(a, dealt);
    var h, clipped := HolderOf(l.pos, a.stock), ClipByVolume(a.amount, Limits(a), dealt).amount;
    var ratio, price := Rate(r, a, dealt), a.quote.price;
    var c := DealAmount(r, a, Some(h), dealt);
    if a.quote.tradable && c.error == None {
      assert c == BuyDeal(r, a, clipped, ratio, Some(h));
      BuyWithinCash(r, a, clipped, ratio, h);
      ValShares(c.amount, price);
      FeeAtLeast(Val(clipped, price), ratio, r.minCost);
    }
  }

  lemma {:induction false} FeeAtLeast(val: real, ratio: real, minCost: real)
    ensures FeeOn(val, ratio, minCost) >= minCost
  {
  }

  lemma {:induction false} CutValue(current: real, d: real, slack: real, price: real)
    requires price > 0.0 && d <= current + slack
    ensures current * price >= Val(d, price) - Val(slack, price)
  {
    ScaleLe(d, current + slack, price);
    SumTimes(current, slack, price);
  }

  /** A sell within the holding may be rounded up and then cut to the holding, so it can miss its fee
      by what the slack is worth; otherwise it leaves the cash non-negative. */
  lemma {:induction false} SellKeepsCash(r: Rules, enabled: bool, l: Ledger, a: Ask, dealt: real)
    requires ValidRules(r) && ValidAsk(a) && ValidState(l.pos) && a.dir == SELL
    requires l.pos.settle == NoSettle && NoShorts(l.pos) && WithinHolding(l.pos, a)
    ensures var after := DealOrder(r, enabled, l, a, dealt).ledger.pos;
            && after.settle == NoSettle
            && (after.cash == l.pos.cash || after.cash >= -Allowance(r, a, dealt))
  {
    hide Val, FeeOn, SellDeal, ClipByVolume, CostRatio, Slack, Shares, SellAmount;
    ClipRange(a, dealt);
    var h, clipped := HolderOf(l.pos, a.stock), ClipByVolume(a.amount, Limits(a), dealt).amount;
    var ratio, price := Rate(r, a, dealt), a.quote.price;
    var c := DealAmount(r, a, Some(h), dealt);
    if a.quote.tradable && c.error == None {
      assert c == SellDeal(r, a, clipped, ratio, Some(h));
      SellWithinCash(r, a, clipped, ratio, h);
      ValShares(c.amount, price);
      CutValue(h.amount, c.amount, Slack(r, a), price);
      assert Val(Slack(r, a), price) >= 0.0 by {
        SlackValue(Slack(r, a), price);
      }
    }
  }

  lemma {:induction false} SlackValue(slack: real, price: real)
    requires slack >= 0.0 && price > 0.0
    ensures Val(slack, price) >= 0.0
  {
    ProductSign(slack, price);
  }

  /** A sell of nearly the whole holding skips rounding, and the position then never rejects it, whether
      it was a little above or a little below the holding. */
  lemma {:induction false} CloseSellAccepted(r: Rules, enabled: bool, l: Ledger, a: Ask, dealt: real)
    requires ValidRules(r) && ValidAsk(a) && ValidState(l.pos) && l.pos.settle != OtherSettle
    requires a.dir == SELL && a.stock in l.pos.book && 0.0 <= l.pos.book[a.stock].amount <= TOLERATED_HOLDING
    requires ClipByVolume(a.amount, Limits(a), dealt).error == None
    requires IsClose(ClipByVolume(a.amount, Limits(a), dealt).amount, l.pos.book[a.stock].amount)
    ensures DealOrder(r, enabled, l, a, dealt).error == None
    ensures DealOrder(r, enabled, l, a, dealt).amount in {0.0, ClipByVolume(a.amount, Limits(a), dealt).amount}
  {
    hide Val, FeeOn, Fee, ClipByVolume, CostRatio, Shares, IsClose, OversellTolerance;
    var current, clipped := l.pos.book[a.stock].amount, ClipByVolume(a.amount, Limits(a), dealt).amount;
    ValShares(clipped, a.quote.price);
    NearSellAccepted(current, clipped);
  }

  lemma {:induction false} DealNeverShort(r: Rules, enabled: bool, l: Ledger, a: Ask, dealt: real)
    requires ValidRules(r) && ValidAsk(a) && ValidState(l.pos) && NoShorts(l.pos)
    ensures NoShorts(DealOrder(r, enabled, l, a, dealt).ledger.pos)
  {
    hide DealAmount, NoShorts, BookTrade, Fee, Rate, Val;
    var c := DealAmount(r, a, Some(HolderOf(l.pos, a.stock)), dealt);
    var val := Val(c.amount, a.quote.price);
    if a.quote.tradable && c.error == None && val > 0.00001 {
      var op := Trade(a.dir, a.stock, val, Fee(r, Rate(r, a, dealt), val), a.quote.price);
      StepNeverShort(l, enabled, op);
      assert Apply(l, enabled, op) == BookTrade(l, enabled, op);
    }
  }

  /** What the run asks of its events: no settlement delays cash, no sell exceeds what is held when it is
      dealt, and no order may take the cash more than the bound below zero. */
  predicate Bounded(r: Rules, enabled: bool, s: SimState, events: seq<Event>, bound: real)
    requires ValidRules(r) && ValidEvents(events) && ValidState(s.ledger.pos)
    decreases |events|
  {
    events == [] ||
    (&& (events[0].SettleOpen? ==> events[0].settle == NoSettle)
     && (events[0].Submit? ==>
          var a := events[0].ask;
          && WithinHolding(s.ledger.pos, a)
          && Allowance(r, a, DealtOf(OpenDay(s, events[0].day).dealt, a.stock)) <= bound)
     && Bounded(r, enabled, Step(r, enabled, s, events[0]).state, events[1..], bound))
  }

  lemma {:induction false} StepKeepsCash(r: Rules, enabled: bool, s: SimState, e: Event, bound: real)
    requires ValidRules(r) && ValidState(s.ledger.pos) && (e.Submit? ==> ValidAsk(e.ask))
    requires s.ledger.pos.settle == NoSettle && NoShorts(s.ledger.pos)
    requires e.SettleOpen? ==> e.settle == NoSettle
    requires e.Submit? ==>
               && WithinHolding(s.ledger.pos, e.ask)
               && Allowance(r, e.ask, DealtOf(OpenDay(s, e.day).dealt, e.ask.stock)) <= bound
    ensures var after := Step(r, enabled, s, e).state.ledger.pos;
            && after.settle == NoSettle && NoShorts(after)
            && after.cash >= MinReal(s.ledger.pos.cash, -bound)
  {
    if e.Submit? {
      hide DealOrder, Allowance, NoShorts, WithinHolding;
      var dealt := DealtOf(OpenDay(s, e.day).dealt, e.ask.stock);
      DealNeverShort(r, enabled, s.ledger, e.ask, dealt);
      if e.ask.dir == BUY {
        BuyKeepsCash(r, enabled, s.ledger, e.ask, dealt);
      } else {
        SellKeepsCash(r, enabled, s.ledger, e.ask, dealt);
      }
    }
  }

  /** Over any run the cash never falls below its start or below zero by more than a single order's
      allowance: overshoots do not add up. */
  lemma {:induction false} CashSafety(r: Rules, enabled: bool, s: SimState, events: seq<Event>, bound: real)
    requires ValidRules(r) && ValidEvents(events) && ValidState(s.ledger.pos)
    requires s.ledger.pos.settle == NoSettle && NoShorts(s.ledger.pos)
    requires Bounded(r, enabled, s, events, bound)
    ensures Simulate(r, enabled, s, events).state.ledger.pos.cash >= MinReal(s.ledger.pos.cash, -bound)
    decreases |events|
  {
    if events != [] {
      StepKeepsCash(r, enabled, s, events[0], bound);
      hide Step, NoShorts;
      CashSafety(r, enabled, Step(r, enabled, s, events[0]).state, events[1..], bound);
    }
  }

  predicate SellsWithinHoldings(r: Rules, enabled: bool, s: SimState, events: seq<Event>)
    requires ValidRules(r) && ValidEvents(events) && ValidState(s.ledger.pos)
    decreases |events|
  {
    events == [] ||
    (&& (events[0].SettleOpen? ==> events[0].settle == NoSettle)
     && (events[0].Submit? ==> WithinHolding(s.ledger.pos, events[0].ask))
     && SellsWithinHoldings(r, enabled, Step(r, enabled, s, events[0]).state, events[1..]))
  }

  lemma {:induction false} NoRoundingNoAllowance(r: Rules, enabled: bool, s: SimState, events: seq<Event>)
    requires ValidRules(r) && ValidEvents(events) && ValidState(s.ledger.pos) && !Rounds(r)
    requires SellsWithinHoldings(r, enabled, s, events)
    ensures Bounded(r, enabled, s, events, 0.0)
    decreases |events|
  {
    if events != [] {
      hide Step;
      NoRoundingNoAllowance(r, enabled, Step(r, enabled, s, events[0]).state, events[1..]);
      if events[0].Submit? {
        ZeroAllowance(r, events[0].ask, DealtOf(OpenDay(s, events[0].day).dealt, events[0].ask.stock));
      }
    }
  }

  lemma {:induction false} ZeroAllowance(r: Rules, a: Ask, dealt: real)
    requires ValidRules(r) && ValidAsk(a) && !Rounds(r)
    ensures Allowance(r, a, dealt) == 0.0
  {
    hide Rate;
    assert Overshoot(0.0, a.quote.price, Rate(r, a, dealt)) == 0.0;
    assert Val(0.0, a.quote.price) == 0.0;
  }

  /** Without unit rounding the cash never becomes negative. */
  lemma {:induction false} CashNeverNegative(r: Rules, enabled: bool, s: SimState, events: seq<Event>)
    requires ValidRules(r) && ValidEvents(events) && ValidState(s.ledger.pos) && !Rounds(r)
    requires s.ledger.pos.settle == NoSettle && NoShorts(s.ledger.pos) && s.ledger.pos.cash >= 0.0
    requires SellsWithinHoldings(r, enabled, s, events)
    ensures Simulate(r, enabled, s, events).state.ledger.pos.cash >= 0.0
  {
    hide Simulate, Bounded, NoShorts;
    NoRoundingNoAllowance(r, enabled, s, events);
    CashSafety(r, enabled, s, events, 0.0);
  }

  // ----- the daily volume cap -----

  /** The order is limited by a cumulative volume of at most the cap. */
  predicate CappedBy(a: Ask, cap: real) {
    Limits(a).Some? &&
    exists i :: 0 <= i < |Limits(a).value| && Limits(a).value[i].Cum? && Limits(a).value[i].value <= cap
  }

  /** Rounding keeps nothing at nothing. */
  predicate ZeroStaysZero(r: Rules) {
    Rounds(r) ==> r.unit.value > 0.1
  }

  lemma {:induction false} RoundZero(r: Rules, a: Ask)
    requires ValidRules(r) && ValidAsk(a) && ZeroStaysZero(r)
    ensures RoundAmount(r, 0.0, a.quote.factor).Ok? ==> RoundAmount(r, 0.0, a.quote.factor).value == 0.0
  {
    if Rounds(r) && a.quote.factor.Some? {
      RoundZeroExactly(a.quote.factor.value, r.unit.value);
    }
  }

  /** The amount dealt exceeds the clipped one by at most the slack, and nothing is dealt of nothing. */
  lemma {:induction false} DealtWithinClip(r: Rules, a: Ask, h: Holder, dealt: real)
    requires ValidRules(r) && ValidAsk(a) && ZeroStaysZero(r) && h.amount >= 0.0
    requires DealAmount(r, a, Some(h), dealt).error == None
    ensures var clipped, d := ClipByVolume(a.amount, Limits(a), dealt).amount, DealAmount(r, a, Some(h), dealt).amount;
            && 0.0 <= d <= clipped + Slack(r, a)
            && (clipped == 0.0 ==> d == 0.0)
  {
    hide ClipByVolume, CostRatio, Slack, RoundUnit, Val, FeeOn, Spend, BuyLimit, IsClose;
    ClipRange(a, dealt);
    RoundZero(r, a);
    var clipped := ClipByVolume(a.amount, Limits(a), dealt).amount;
    var ratio := Rate(r, a, dealt);
    if a.dir == SELL {
      SellWithinCash(r, a, clipped, ratio, h);
    } else {
      BuyWithinCash(r, a, clipped, ratio, h);
      if clipped == 0.0 && ratio > 0.0 {
        BuyLimitNonNegative(a.quote.price, h.cash, ratio, r.minCost);
      }
    }
  }

  lemma {:induction false} ClipUnderCap(a: Ask, cap: real, dealt: real)
    requires a.amount >= 0.0 && CappedBy(a, cap) && ClipByVolume(a.amount, Limits(a), dealt).error == None
    ensures var clipped := ClipByVolume(a.amount, Limits(a), dealt).amount;
            clipped == 0.0 || dealt + clipped <= cap
  {
    var limits := Limits(a).value;
    var i :| 0 <= i < |limits| && limits[i].Cum? && limits[i].value <= cap;
    assert LeastHeadroom(limits, dealt) <= Headroom(limits[i], dealt);
  }

  /** One order adds to the count only up to the cap and the slack. */
  lemma {:induction false} StepUnderCap(r: Rules, enabled: bool, l: Ledger, a: Ask, dealt: real, cap: real, slack: real)
    requires ValidRules(r) && ValidAsk(a) && ValidState(l.pos) && NoShorts(l.pos) && ZeroStaysZero(r)
    requires CappedBy(a, cap) && Slack(r, a) <= slack
    requires DealOrder(r, enabled, l, a, dealt).error == None
    ensures dealt <= dealt + DealOrder(r, enabled, l, a, dealt).amount <= MaxReal(dealt, cap + slack)
  {
    hide Val, Fee, Rate, BookTrade, ClipByVolume, CappedBy, Slack, SellDeal, BuyDeal, CostRatio;
    if a.quote.tradable {
      DealtWithinClip(r, a, HolderOf(l.pos, a.stock), dealt);
      ClipUnderCap(a, cap, dealt);
    }
  }

  /** What was dealt of a stock on a day. */
  function TotalOn(fills: seq<Fill>, stock: string, day: int): real {
    if fills == [] then 0.0
    else (if fills[0].stock == stock && fills[0].day == day then fills[0].amount else 0.0)
         + TotalOn(fills[1..], stock, day)
  }

  lemma {:induction false} TotalOfAppend(a: seq<Fill>, b: seq<Fill>, stock: string, day: int)
    ensures TotalOn(a + b, stock, day) == TotalOn(a, stock, day) + TotalOn(b, stock, day)
    decreases |a|
  {
    if a == [] {
      assert a + b == b;
    } else {
      assert (a + b)[0] == a[0] && (a + b)[1..] == a[1..] + b;
      TotalOfAppend(a[1..], b, stock, day);
    }
  }

  /** Days do not go back, and start no earlier than the state's. */
  predicate DaysAscend(from: Option<int>, events: seq<Event>)
    decreases |events|
  {
    events == [] ||
    if !events[0].Submit? then DaysAscend(from, events[1..])
    else (from == None || from.value <= events[0].day) && DaysAscend(Some(events[0].day), events[1..])
  }

  /** Every order on the stock that day is capped, and its rounding slack is within the given one. */
  predicate DayCapped(r: Rules, events: seq<Event>, stock: string, day: int, cap: real, slack: real)
    requires ValidEvents(events)
  {
    forall i :: 0 <= i < |events| && events[i].Submit? && events[i].ask.stock == stock && events[i].day == day ==>
                  CappedBy(events[i].ask, cap) && Slack(r, events[i].ask) <= slack
  }

  /** The count of the stock as far as it belongs to the day. */
  function CountOn(s: SimState, stock: string, day: int): real {
    if s.day == Some(day) then DealtOf(s.dealt, stock) else 0.0
  }

  lemma {:induction false} NoFillsBefore(
      r: Rules, enabled: bool, s: SimState, events: seq<Event>, stock: string, day: int)
    requires ValidRules(r) && ValidEvents(events) && ValidState(s.ledger.pos)
    requires s.day.Some? && s.day.value > day && DaysAscend(s.day, events)
    ensures TotalOn(Simulate(r, enabled, s, events).fills, stock, day) == 0.0
    decreases |events|
  {
    if events != [] {
      hide DealOrder, Apply;
      var first := Step(r, enabled, s, events[0]);
      if first.error == None {
        NoFillsBefore(r, enabled, first.state, events[1..], stock, day);
        TotalOfAppend(first.fills, Simulate(r, enabled, first.state, events[1..]).fills, stock, day);
      }
    }
  }

  /** The count of a stock changes only by what is dealt of it, except that a later day starts it over. */
  lemma {:induction false} CounterExact(r: Rules, enabled: bool, s: SimState, e: Event, stock: string, day: int)
    requires ValidRules(r) && ValidState(s.ledger.pos) && (e.Submit? ==> ValidAsk(e.ask))
    requires Step(r, enabled, s, e).error == None
    requires e.Submit? ==> s.day == None || s.day.value <= e.day
    ensures var ran := Step(r, enabled, s, e);
            && (!e.Submit? ==> ran.state.day == s.day && ran.state.dealt == s.dealt)
            && (e.Submit? ==>
                 && ran.state.day == Some(e.day)
                 && DealtOf(ran.state.dealt, stock) == CountOn(s, stock, e.day) + TotalOn(ran.fills, stock, e.day))
            && CountOn(ran.state, stock, day) ==
                 (if e.Submit? && e.day > day then 0.0 else CountOn(s, stock, day) + TotalOn(ran.fills, stock, day))
  {
    hide DealOrder;
    if e.Submit? {
      var ran := Step(r, enabled, s, e);
      assert ran.fills[1..] == [];
    }
  }

  lemma {:induction false} FillsUnderCap(
      r: Rules, enabled: bool, s: SimState, events: seq<Event>, stock: string, day: int, cap: real, slack: real)
    requires ValidRules(r) && ValidEvents(events) && ValidState(s.ledger.pos) && NoShorts(s.ledger.pos)
    requires ZeroStaysZero(r) && DaysAscend(s.day, events) && DayCapped(r, events, stock, day, cap, slack)
    ensures CountOn(s, stock, day) + TotalOn(Simulate(r, enabled, s, events).fills, stock, day)
            <= MaxReal(CountOn(s, stock, day), cap + slack)
    decreases |events|
  {
    if events != [] {
      var e, first := events[0], Step(r, enabled, s, events[0]);
      if first.error == None {
        CounterExact(r, enabled, s, e, stock, day);
        StepNoShorts(r, enabled, s, e);
        if e.Submit? && e.ask.stock == stock && e.day == day {
          StepUnderCap(r, enabled, s.ledger, e.ask, DealtOf(OpenDay(s, day).dealt, stock), cap, slack);
        }
        StepTotal(r, enabled, s, e, stock, day);
        hide Step, NoShorts, CountOn, TotalOn, CappedBy, Slack;
        assert DayCapped(r, events[1..], stock, day, cap, slack) by {
          assert forall i :: 0 <= i < |events| - 1 ==> events[1..][i] == events[i + 1];
        }
        TotalOfAppend(first.fills, Simulate(r, enabled, first.state, events[1..]).fills, stock, day);
        if e.Submit? && e.day > day {
          NoFillsBefore(r, enabled, first.state, events[1..], stock, day);
        } else {
          FillsUnderCap(r, enabled, first.state, events[1..], stock, day, cap, slack);
        }
      }
    }
  }

  lemma {:induction false} StepTotal(r: Rules, enabled: bool, s: SimState, e: Event, stock: string, day: int)
    requires ValidRules(r) && ValidState(s.ledger.pos) && (e.Submit? ==> ValidAsk(e.ask))
    requires Step(r, enabled, s, e).error == None
    ensures TotalOn(Step(r, enabled, s, e).fills, stock, day) ==
            if e.Submit? && e.ask.stock == stock && e.day == day then
              DealOrder(r, enabled, s.ledger, e.ask, DealtOf(OpenDay(s, day).dealt, stock)).amount
            else 0.0
  {
    hide DealOrder, Apply;
    if e.Submit? {
      assert Step(r, enabled, s, e).fills[1..] == [];
    }
  }

  lemma {:induction false} StepNoShorts(r: Rules, enabled: bool, s: SimState, e: Event)
    requires ValidRules(r) && ValidState(s.ledger.pos) && NoShorts(s.ledger.pos) && (e.Submit? ==> ValidAsk(e.ask))
    ensures NoShorts(Step(r, enabled, s, e).state.ledger.pos)
  {
    hide DealOrder;
    if e.Submit? {
      DealNeverShort(r, enabled, s.ledger, e.ask, DealtOf(OpenDay(s, e.day).dealt, e.ask.stock));
    }
  }

  /** Over any run, what is dealt of a stock on one day exceeds the day's cumulative limit by at most one
      rounding step, whatever other stocks, days and bar ends lie between its orders. */
  lemma {:induction false} DailyCap(
      r: Rules, enabled: bool, s: SimState, events: seq<Event>, stock: string, day: int, cap: real, slack: real)
    requires ValidRules(r) && ValidEvents(events) && ValidState(s.ledger.pos) && NoShorts(s.ledger.pos)
    requires ZeroStaysZero(r) && DaysAscend(s.day, events) && DayCapped(r, events, stock, day, cap, slack)
    requires s.day == None || s.day.value < day
    requires cap >= 0.0 && slack >= 0.0
    ensures TotalOn(Simulate(r, enabled, s, events).fills, stock, day) <= cap + slack
  {
    hide Simulate, DaysAscend, DayCapped, TotalOn;
    FillsUnderCap(r, enabled, s, events, stock, day, cap, slack);
  }

  /** Without rounding the cap is never exceeded. */
  lemma {:induction false} DailyCapExact(
      r: Rules, enabled: bool, s: SimState, events: seq<Event>, stock: string, day: int, cap: real)
    requires ValidRules(r) && ValidEvents(events) && ValidState(s.ledger.pos) && NoShorts(s.ledger.pos)
    requires !Rounds(r) && DaysAscend(s.day, events)
    requires forall i :: 0 <= i < |events| && events[i].Submit? && events[i].day == day ==>
                           events[i].ask.stock == stock ==> CappedBy(events[i].ask, cap)
    requires s.day == None || s.day.value < day
    requires cap >= 0.0
    ensures TotalOn(Simulate(r, enabled, s, events).fills, stock, day) <= cap
  {
    hide Simulate, DaysAscend, CappedBy, TotalOn;
    DailyCap(r, enabled, s, events, stock, day, cap, 0.0);
  }

  /** With a unit of 0.1 of a share or less, orders on an exhausted limit go on dealing. */
  lemma {:induction false} SmallUnitEvadesCap(r: Rules, a: Ask, h: Holder, dealt: real)
    requires ValidRules(r) && ValidAsk(a) && Rounds(r) && a.quote.factor.Some? && a.dir == BUY
    requires ClipByVolume(a.amount, Limits(a), dealt) == Clipped(0.0, None)
    requires h.cash >= r.minCost
    ensures DealAmount(r, a, Some(h), dealt) == Clipped(RoundUnit(0.0, a.quote.factor.value, r.unit.value), None)
    ensures DealAmount(r, a, Some(h), dealt).amount > 0.0 <==> r.unit.value <= 0.1
  {
    hide RoundUnit, CostRatio;
    var ratio := CostRatio(r, a, 0.0);
    assert Val(0.0, a.quote.price) == 0.0 && FeeOn(0.0, ratio, r.minCost) == r.minCost;
    RoundZeroExactly(a.quote.factor.value, r.unit.value);
    RoundUp(0.0, a.quote.factor.value, r.unit.value);
  }

  // ----- what the fills report -----

  /** The orders among the events, each with its day. */
  function OrdersOf(events: seq<Event>): seq<(int, Ask)> {
    if events == [] then []
    else (if events[0].Submit? then [(events[0].day, events[0].ask)] else []) + OrdersOf(events[1..])
  }

  predicate Reports(f: Fill, day: int, a: Ask) {
    f.stock == a.stock && f.day == day && f.val == f.amount * a.quote.price
  }

  /** One fill for each order, in the same sequence. */
  predicate FillsMatch(fills: seq<Fill>, orders: seq<(int, Ask)>) {
    |fills| == |orders| && forall i :: 0 <= i < |fills| ==> Reports(fills[i], orders[i].0, orders[i].1)
  }

  function FeesOf(fills: seq<Fill>): real {
    if fills == [] then 0.0 else fills[0].fee + FeesOf(fills[1..])
  }

  /** The value of the fills that is not negligible. */
  function ValuesOf(fills: seq<Fill>): real {
    if fills == [] then 0.0
    else (if fills[0].val > 0.00001 then fills[0].val else 0.0) + ValuesOf(fills[1..])
  }

  predicate BookedBetween(l: Ledger, l': Ledger, fills: seq<Fill>) {
    l'.cost - l.cost == FeesOf(fills) && l'.turnover - l.turnover == ValuesOf(fills)
  }

  lemma {:induction false} StepReports(r: Rules, s: SimState, e: Event)
    requires ValidRules(r) && (e.Submit? ==> ValidAsk(e.ask)) && ValidState(s.ledger.pos)
    requires Step(r, true, s, e).error == None
    ensures FillsMatch(Step(r, true, s, e).fills, OrdersOf([e]))
    ensures BookedBetween(s.ledger, Step(r, true, s, e).state.ledger, Step(r, true, s, e).fills)
  {
    hide DealOrder, BookTrade, MarkAll, SettleStart, SettleCommit;
    if e.Submit? {
      var dealt := DealtOf(OpenDay(s, e.day).dealt, e.ask.stock);
      var d := DealOrder(r, true, s.ledger, e.ask, dealt);
      OneReport(Fill(e.ask.stock, e.day, d.amount, d.val, d.fee));
      DealReports(r, s.ledger, e.ask, dealt);
      assert OrdersOf([e]) == [(e.day, e.ask)] by {
        assert [e][1..] == [];
      }
    }
  }

  lemma {:induction false} OneReport(f: Fill)
    ensures FeesOf([f]) == f.fee && ValuesOf([f]) == if f.val > 0.00001 then f.val else 0.0
  {
    assert [f][1..] == [];
  }

  lemma {:induction false} DealReports(r: Rules, l: Ledger, a: Ask, dealt: real)
    requires ValidRules(r) && ValidAsk(a) && ValidState(l.pos) && DealOrder(r, true, l, a, dealt).error == None
    ensures var d := DealOrder(r, true, l, a, dealt);
            && d.val == d.amount * a.quote.price
            && d.ledger.cost == l.cost + d.fee
            && d.ledger.turnover == l.turnover + if d.val > 0.00001 then d.val else 0.0
  {
    hide DealAmount, Rate, Shares, Profit, Sell, Buy, FeeOn;
  }

  lemma {:induction false} BookedTwice(l: Ledger, mid: Ledger, l': Ledger, a: seq<Fill>, b: seq<Fill>)
    requires BookedBetween(l, mid, a) && BookedBetween(mid, l', b)
    ensures BookedBetween(l, l', a + b)
    decreases |a|
  {
    SumsOfAppend(a, b);
  }

  lemma {:induction false} SumsOfAppend(a: seq<Fill>, b: seq<Fill>)
    ensures FeesOf(a + b) == FeesOf(a) + FeesOf(b) && ValuesOf(a + b) == ValuesOf(a) + ValuesOf(b)
    decreases |a|
  {
    if a == [] {
      assert a + b == b;
    } else {
      assert (a + b)[0] == a[0] && (a + b)[1..] == a[1..] + b;
      SumsOfAppend(a[1..], b);
    }
  }

  /** A run that raises nothing reports one fill for each of its orders, in their sequence, with the order's
      stock and day and the value of the amount at the order's price; and the account's cost and turnover
      have grown by exactly the fees and the values reported. */
  lemma {:induction false} FillsAreBooked(r: Rules, s: SimState, events: seq<Event>)
    requires ValidRules(r) && ValidEvents(events) && ValidState(s.ledger.pos)
    requires Simulate(r, true, s, events).error == None
    ensures var ran := Simulate(r, true, s, events);
            FillsMatch(ran.fills, OrdersOf(events)) && BookedBetween(s.ledger, ran.state.ledger, ran.fills)
    decreases |events|
  {
    hide Step, BookedBetween, Reports;
    if events != [] {
      var first := Step(r, true, s, events[0]);
      var rest := Simulate(r, true, first.state, events[1..]);
      StepReports(r, s, events[0]);
      FillsAreBooked(r, first.state, events[1..]);
      BookedTwice(s.ledger, first.state.ledger, rest.state.ledger, first.fills, rest.fills);
      assert OrdersOf(events) == OrdersOf([events[0]]) + OrdersOf(events[1..]);
    } else {
      BookedNothing(s.ledger);
    }
  }

  lemma {:induction false} BookedNothing(l: Ledger)
    ensures BookedBetween(l, l, [])
  {
  }

  // ----- the order of orders -----

  datatype TradeType = Serial | Parallel | OtherType

  function OfDirection(orders: seq<Order>, dir: Direction): seq<Order> {
    if orders == [] then []
    else (if orders[0].dir == dir then [orders[0]] else []) + OfDirection(orders[1..], dir)
  }

  /** In parallel trading the buys come first, each direction in its own order. */
  function Iteration(orders: seq<Order>, t: TradeType): Option<seq<Order>> {
    match t
    case Serial => Some(orders)
    case Parallel => Some(OfDirection(orders, BUY) + OfDirection(orders, SELL))
    case OtherType => None
  }

  lemma {:induction false} DirectionOnly(orders: seq<Order>, dir: Direction)
    ensures forall i :: 0 <= i < |OfDirection(orders, dir)| ==> OfDirection(orders, dir)[i].dir == dir
  {
    if orders != [] {
      DirectionOnly(orders[1..], dir);
    }
  }

  lemma {:induction false} DirectionsSplit(orders: seq<Order>)
    ensures multiset(OfDirection(orders, BUY)) + multiset(OfDirection(orders, SELL)) == multiset(orders)
  {
    if orders != [] {
      DirectionsSplit(orders[1..]);
      assert orders == [orders[0]] + orders[1..];
    }
  }

  /** Parallel trading deals the same orders, with no sell before a buy: money from sells never helps. */
  lemma {:induction false} ParallelBuysFirst(orders: seq<Order>)
    ensures var it := Iteration(orders, Parallel).value;
            && multiset(it) == multiset(orders)
            && forall i, j :: 0 <= i < j < |it| && it[i].dir == SELL ==> it[j].dir == SELL
  {
    DirectionsSplit(orders);
    DirectionOnly(orders, BUY);
    DirectionOnly(orders, SELL);
    var it := Iteration(orders, Parallel).value;
    var n := |OfDirection(orders, BUY)|;
    assert multiset(it) == multiset(OfDirection(orders, BUY)) + multiset(OfDirection(orders, SELL));
    forall k | 0 <= k < |it|
      ensures it[k].dir == if k < n then BUY else SELL
    {
      assert it[k] == if k < n then OfDirection(orders, BUY)[k] else OfDirection(orders, SELL)[k - n];
    }
  }

  /** Serial trading takes the orders as they are, parallel trading keeps the order within each direction, and
      no other type of trading is supported. */
  lemma {:induction false} IterationKeepsOrder(orders: seq<Order>, t: TradeType)
    ensures Iteration(orders, t) == None <==> t == OtherType
    ensures t == Serial ==> Iteration(orders, t) == Some(orders)
    ensures t != OtherType ==>
              forall dir :: OfDirection(Iteration(orders, t).value, dir) == OfDirection(orders, dir)
  {
    if t == Parallel {
      forall dir
        ensures OfDirection(Iteration(orders, t).value, dir) == OfDirection(orders, dir)
      {
        OfDirectionAppend(OfDirection(orders, BUY), OfDirection(orders, SELL), dir);
        OfOneDirection(orders, BUY, dir);
        OfOneDirection(orders, SELL, dir);
      }
    }
  }

  lemma {:induction false} OfDirectionAppend(a: seq<Order>, b: seq<Order>, dir: Direction)
    ensures OfDirection(a + b, dir) == OfDirection(a, dir) + OfDirection(b, dir)
    decreases |a|
  {
    if a == [] {
      assert a + b == b;
    } else {
      assert (a + b)[0] == a[0] && (a + b)[1..] == a[1..] + b;
      OfDirectionAppend(a[1..], b, dir);
    }
  }

  lemma {:induction false} OfOneDirection(orders: seq<Order>, d: Direction, dir: Direction)
    ensures OfDirection(OfDirection(orders, d), dir) == if d == dir then OfDirection(orders, d) else []
  {
    if orders != [] {
      OfOneDirection(orders[1..], d, dir);
      var first := if orders[0].dir == d then [orders[0]] else [];
      OfDirectionAppend(first, OfDirection(orders[1..], d), dir);
      assert first != [] ==> first[1..] == [];
    }
  }

  // ----- the object -----

  function Submitted(orders: seq<Order>, day: int): seq<Event> {
    seq(|orders|, i requires 0 <= i < |orders| => Submit(day, orders[i].AsAsk()))
  }

  lemma {:induction false} RunStep(r: Rules, enabled: bool, s: SimState, events: seq<Event>, e: Event)
    requires ValidRules(r) && ValidEvents(events) && (e.Submit? ==> ValidAsk(e.ask)) && ValidState(s.ledger.pos)
    requires Simulate(r, enabled, s, events).error == None
    ensures ValidEvents(events + [e])
    ensures var before := Simulate(r, enabled, s, events);
            var last := Step(r, enabled, before.state, e);
            Simulate(r, enabled, s, events + [e]) == Ran(last.state, before.fills + last.fills, last.error)
    decreases |events|
  {
    hide Step;
    if events == [] {
      assert events + [e] == [e] && [e][1..] == [];
    } else {
      assert (events + [e])[0] == events[0] && (events + [e])[1..] == events[1..] + [e];
      var first := Step(r, enabled, s, events[0]);
      RunStep(r, enabled, first.state, events[1..], e);
    }
  }

  lemma {:induction false} RunStopsEarly(r: Rules, enabled: bool, s: SimState, events: seq<Event>, n: nat)
    requires n <= |events| && ValidRules(r) && ValidEvents(events) && ValidState(s.ledger.pos)
    requires Simulate(r, enabled, s, events[..n]).error.Some?
    ensures Simulate(r, enabled, s, events) == Simulate(r, enabled, s, events[..n])
    decreases n
  {
    hide Step;
    if n > 0 {
      assert events[..n][0] == events[0] && events[..n][1..] == events[1..][..n - 1];
      var first := Step(r, enabled, s, events[0]);
      if first.error == None {
        RunStopsEarly(r, enabled, first.state, events[1..], n - 1);
      }
    }
  }

  lemma {:induction false} IterationValid(orders: seq<Order>, t: TradeType)
    requires t != OtherType && forall i :: 0 <= i < |orders| ==> ValidAsk(orders[i].AsAsk())
    ensures forall o :: o in Iteration(orders, t).value ==> o in orders && ValidAsk(o.AsAsk())
    ensures forall day :: ValidEvents(Submitted(Iteration(orders, t).value, day))
  {
    DirectionsSplit(orders);
    var it := Iteration(orders, t).value;
    forall o | o in it
      ensures o in orders && ValidAsk(o.AsAsk())
    {
      assert o in multiset(orders) by {
        if t == Parallel {
          assert multiset(it) == multiset(OfDirection(orders, BUY)) + multiset(OfDirection(orders, SELL));
          assert o in multiset(it);
        }
      }
    }
  }

  lemma {:induction false} RunNothing(r: Rules, enabled: bool, s: SimState, events: seq<Event>)
    requires ValidRules(r) && ValidState(s.ledger.pos)
    ensures events[..0] == [] && Simulate(r, enabled, s, []) == Ran(s, [], None)
  {
  }

  lemma {:induction false} EventsTo(events: seq<Event>, i: nat)
    requires ValidEvents(events) && i < |events|
    ensures ValidEvents(events[..i]) && ValidEvents(events[..i + 1])
    ensures events[i].Submit? ==> ValidAsk(events[i].ask)
  {
  }

  class SimulatorExecutor {
    const exchange: Exchange
    const account: Account
    const tradeType: TradeType
    var dealtOrderAmount: map<string, real>
    var dealDay: Option<int>

    constructor (exchange: Exchange, account: Account, tradeType: TradeType)
      ensures this.exchange == exchange && this.account == account && this.tradeType == tradeType
      ensures dealtOrderAmount == map[] && dealDay == None
    {
      this.exchange, this.account, this.tradeType := exchange, account, tradeType;
      dealtOrderAmount, dealDay := map[], None;
    }

    function Now(): SimState
      reads this, account, account.position, account.accum
    {
      SimState(account.Now(), dealtOrderAmount, dealDay)
    }

    /** Deals one order of a step that starts on the day. */
    method DealNext(order: Order, day: int) returns (fills: seq<Fill>, error: Option<DealError>)
      requires ValidRules(exchange.rules) && ValidState(account.position.Now()) && ValidAsk(order.AsAsk())
      modifies this, order, account.position, account.accum
      ensures account.position == old(account.position) && account.accum == old(account.accum)
      ensures account.enabled == old(account.enabled)
      ensures Ran(Now(), fills, error) ==
              Step(exchange.rules, account.enabled, old(Now()), Submit(day, order.AsAsk()))
    {
      hide DealOrder;
      if dealDay == None || day > dealDay.value {
        dealtOrderAmount := map[];
        dealDay := Some(day);
      }
      var dealt := DealtOf(dealtOrderAmount, order.stock);
      var val, fee;
      val, fee, error := exchange.Deal(order, account, dealt);
      if error.Some? {
        return [], error;
      }
      fills := [Fill(order.stock, day, order.dealAmount, val, fee)];
      dealtOrderAmount := dealtOrderAmount[order.stock := dealt + order.dealAmount];
    }

    /** Deals the orders of one step that starts on the day. */
    method CollectData(
        orders: seq<Order>, day: int) returns (fills: seq<Fill>, unsupported: bool, error: Option<DealError>)
      requires ValidRules(exchange.rules) && ValidState(account.position.Now())
      requires forall i :: 0 <= i < |orders| ==> ValidAsk(orders[i].AsAsk())
      modifies this, orders, account.position, account.accum
      ensures unsupported == (Iteration(orders, tradeType) == None)
      ensures unsupported ==> Now() == old(Now())
      ensures !unsupported ==>
                var events := Submitted(Iteration(orders, tradeType).value, day);
                ValidEvents(events) &&
                Ran(Now(), fills, error) == Simulate(exchange.rules, account.enabled, old(Now()), events)
    {
      fills, error, unsupported := [], None, Iteration(orders, tradeType) == None;
      if unsupported {
        return;
      }
      var it := Iteration(orders, tradeType).value;
      IterationValid(orders, tradeType);
      ghost var start, rules, enabled, events := Now(), exchange.rules, account.enabled, Submitted(it, day);
      RunNothing(rules, enabled, start, events);
      hide Step, Iteration, ValidRules, ValidAsk, Simulate, ValidState, ValidEvents;
      for i := 0 to |it|
        invariant account.position == old(account.position) && account.accum == old(account.accum)
        invariant account.enabled == enabled && ValidState(account.position.Now()) && error == None
        invariant Ran(Now(), fills, None) == Simulate(rules, enabled, start, events[..i])
      {
        assert events[..i + 1] == events[..i] + [events[i]];
        EventsTo(events, i);
        RunStep(rules, enabled, start, events[..i], events[i]);
        var dealt;
        dealt, error := DealNext(it[i], day);
        fills := fills + dealt;
        assert Ran(Now(), fills, error) == Simulate(rules, enabled, start, events[..i + 1]);
        if error.Some? {
          RunStopsEarly(rules, enabled, start, events, i + 1);
          return;
        }
      }
      assert events[..|it|] == events;
    }
  }
}
