/** Holdings and cash (quant_master/backtest/position.py), in exact real arithmetic. */
module Position {
  import opened Common
  import opened RealArith

  datatype Holding = Holding(amount: real, price: real)

  type Book = map<string, Holding>

  datatype SettleType = NoSettle | CashSettle | OtherSettle

  /** The state of a position; cashDelay is present while a cash settlement is open. */
  datatype State = State(book: Book, cash: real, cashDelay: Option<real>, settle: SettleType)

  datatype Error =
    | NotHeld            // selling, or pricing, a stock that is not in the position
    | Oversold           // selling more than the tolerance above the holding
    | NegativeRest       // the holding left by a sell is below -1e-5
    | UnsupportedSettle
    | NestedSettle

  datatype Outcome = Outcome(state: State, error: Option<Error>)

  predicate ValidState(s: State) {
    s.settle == CashSettle <==> s.cashDelay.Some?
  }

  /** numpy's closeness test with its default tolerances, relative to the second argument. */
  predicate IsClose(a: real, b: real) {
    AbsReal(a - b) <= 0.00000001 + 0.00001 * AbsReal(b)
  }

  function OversellTolerance(current: real): real {
    MinReal(5.0, MaxReal(0.00001, 0.00002 * AbsReal(current)))
  }

  // ----- what the operations do -----

  /** The amount a trade of this value moves. */
  function Shares(tradeVal: real, tradePrice: real): real
    requires tradePrice > 0.0
  {
    tradeVal / tradePrice
  }

  function Buy(s: State, stock: string, tradeVal: real, cost: real, tradePrice: real): State
    requires tradePrice > 0.0
  {
    var amount := Shares(tradeVal, tradePrice);
    var holding := if stock in s.book then Holding(s.book[stock].amount + amount, s.book[stock].price)
                   else Holding(amount, tradePrice);
    s.(book := s.book[stock := holding], cash := s.cash - (tradeVal + cost))
  }

  /** The amount a sell settles on: an oversell within the tolerance is cut to the holding. */
  function SellAmount(current: real, amount: real): Option<real> {
    if amount > current then
      if amount - current <= OversellTolerance(current) then Some(current) else None
    else Some(amount)
  }

  /** The value that goes with the settled amount. */
  function SellValue(current: real, amount: real, tradeVal: real, tradePrice: real): real {
    if amount > current then current * tradePrice else tradeVal
  }

  function Sell(s: State, stock: string, tradeVal: real, cost: real, tradePrice: real): Outcome
    requires tradePrice > 0.0 && ValidState(s)
  {
    if stock !in s.book then Outcome(s, Some(NotHeld))
    else
      var current := s.book[stock].amount;
      match SellAmount(current, Shares(tradeVal, tradePrice))
      case None => Outcome(s, Some(Oversold))
      case Some(amount) =>
        var rest := current - amount;
        var newCash := SellValue(current, Shares(tradeVal, tradePrice), tradeVal, tradePrice) - cost;
        var sold := if IsClose(current, amount) then s.(book := s.book - {stock})
                    else s.(book := s.book[stock := s.book[stock].(amount := rest)]);
        if !IsClose(current, amount) && rest < -0.00001 then Outcome(sold, Some(NegativeRest))
        else
          match s.settle
          case CashSettle => Outcome(sold.(cashDelay := Some(s.cashDelay.value + newCash)), None)
          case NoSettle => Outcome(sold.(cash := s.cash + newCash), None)
          case OtherSettle => Outcome(sold, Some(UnsupportedSettle))
  }

  function Mark(s: State, stock: string, price: real): Outcome {
    if stock in s.book then Outcome(s.(book := s.book[stock := s.book[stock].(price := price)]), None)
    else Outcome(s, Some(NotHeld))
  }

  function SettleStart(s: State, t: SettleType): Outcome {
    if s.settle != NoSettle then Outcome(s, Some(NestedSettle))
    else Outcome(s.(settle := t, cashDelay := if t == CashSettle then Some(0.0) else s.cashDelay), None)
  }

  function SettleCommit(s: State): Outcome
    requires ValidState(s)
  {
    match s.settle
    case NoSettle => Outcome(s, None)
    case CashSettle => Outcome(s.(cash := s.cash + s.cashDelay.value, cashDelay := None, settle := NoSettle), None)
    case OtherSettle => Outcome(s, Some(UnsupportedSettle))
  }

  // ----- value -----

  ghost function StockValue(book: Book): real
    decreases |book|
  {
    if book == map[] then 0.0
    else
      var k :| k in book;
      book[k].amount * book[k].price + StockValue(book - {k})
  }

  /** One unfolding of the sum. */
  lemma {:induction false} StockValueStep(book: Book) returns (j: string)
    requires book != map[]
    ensures j in book && StockValue(book) == book[j].amount * book[j].price + StockValue(book - {j})
  {
    j :| j in book && StockValue(book) == book[j].amount * book[j].price + StockValue(book - {j});
  }

  /** The sum can be taken starting from any stock. */
  lemma {:induction false} StockValueAt(book: Book, k: string)
    requires k in book
    ensures StockValue(book) == book[k].amount * book[k].price + StockValue(book - {k})
    decreases |book|
  {
    hide StockValue;
    var j := StockValueStep(book);
    if j != k {
      StockValueAt(book - {j}, k);
      StockValueAt(book - {k}, j);
      assert book - {j} - {k} == book - {k} - {j};
    }
  }

  lemma {:induction false} StockValueSet(book: Book, k: string, h: Holding)
    ensures StockValue(book[k := h]) == StockValue(book - {k}) + h.amount * h.price
  {
    hide StockValue;
    StockValueAt(book[k := h], k);
    assert book[k := h] - {k} == book - {k};
  }

  function CashIn(s: State): real {
    s.cash + if s.cashDelay.Some? then s.cashDelay.value else 0.0
  }

  ghost function Value(s: State): real {
    StockValue(s.book) + CashIn(s)
  }

  function PriceOf(s: State, stock: string): real {
    if stock in s.book then s.book[stock].price else 0.0
  }

  lemma {:induction false} SharesAtPrice(tradeVal: real, tradePrice: real)
    requires tradePrice > 0.0
    ensures Shares(tradeVal, tradePrice) * tradePrice == tradeVal
  {
  }

  /** A buy changes the value by the cost and by what the amount gains at the position's price. */
  lemma {:induction false} BuyChangesValue(s: State, stock: string, tradeVal: real, cost: real, tradePrice: real)
    requires tradePrice > 0.0
    ensures var s' := Buy(s, stock, tradeVal, cost, tradePrice);
            && stock in s'.book
            && Value(s') - Value(s) == PriceOf(s', stock) * Shares(tradeVal, tradePrice) - tradeVal - cost
  {
    var amount := Shares(tradeVal, tradePrice);
    var s' := Buy(s, stock, tradeVal, cost, tradePrice);
    StockValueSet(s.book, stock, s'.book[stock]);
    if stock in s.book {
      StockValueAt(s.book, stock);
      var h := s.book[stock];
      assert (h.amount + amount) * h.price == h.amount * h.price + h.price * amount;
    } else {
      assert s.book - {stock} == s.book;
    }
  }

  /** What a sell loses to its tolerances, as seen by the account: an oversell that is cut, or a
      residue that is dropped with the holding. */
  function Drift(current: real, amount: real, price: real, tradePrice: real, close: bool): real {
    if amount > current then (amount - current) * (price - tradePrice)
    else if close then -(current - amount) * price
    else 0.0
  }

  function SellDrift(s: State, stock: string, tradeVal: real, tradePrice: real): real
    requires tradePrice > 0.0
  {
    if stock !in s.book then 0.0
    else
      var h, amount := s.book[stock], Shares(tradeVal, tradePrice);
      Drift(h.amount, amount, h.price, tradePrice, IsClose(h.amount, amount))
  }

  /** The value a settled sell takes out of the stocks. */
  function Removed(current: real, settled: real, price: real): real {
    (if IsClose(current, settled) then current else settled) * price
  }

  /** What a sell takes out of the stocks and puts into the cash, in terms of the settled amount. */
  lemma {:induction false} SellMoves(s: State, stock: string, tradeVal: real, cost: real, tradePrice: real)
    requires tradePrice > 0.0 && ValidState(s) && Sell(s, stock, tradeVal, cost, tradePrice).error == None
    ensures stock in s.book
    ensures var h, s' := s.book[stock], Sell(s, stock, tradeVal, cost, tradePrice).state;
            var settled := SellAmount(h.amount, Shares(tradeVal, tradePrice)).value;
            && SellAmount(h.amount, Shares(tradeVal, tradePrice)).Some?
            && CashIn(s') == CashIn(s) + SellValue(h.amount, Shares(tradeVal, tradePrice), tradeVal, tradePrice) - cost
            && StockValue(s'.book) == StockValue(s.book) - Removed(h.amount, settled, h.price)
  {
    hide StockValue, IsClose, SellAmount, SellValue;
    var h := s.book[stock];
    var amount := SellAmount(h.amount, Shares(tradeVal, tradePrice)).value;
    StockValueAt(s.book, stock);
    StockValueSet(s.book, stock, h.(amount := h.amount - amount));
    assert (h.amount - amount) * h.price == h.amount * h.price - amount * h.price;
  }

  lemma {:induction false} Distribute(a: real, b: real, c: real)
    ensures (a - b) * c == a * c - b * c
  {
  }

  /** What the settled amount brings, against what the ordered amount would have brought. */
  lemma {:induction false} DriftOf(current: real, amount: real, price: real, tradePrice: real, close: bool)
    ensures (if amount > current then current * tradePrice - current * price
             else if close then amount * tradePrice - current * price
             else amount * tradePrice - amount * price) ==
            amount * tradePrice - price * amount + Drift(current, amount, price, tradePrice, close)
  {
    Distribute(price, tradePrice, amount - current);
    Distribute(amount, current, price);
    Distribute(amount, current, tradePrice);
  }

  /** The settled amount takes the whole holding whenever the ordered amount exceeds or nearly equals it. */
  lemma {:induction false} SettledGain(current: real, amount: real, price: real, tradeVal: real, tradePrice: real)
    requires SellAmount(current, amount).Some? && tradeVal == amount * tradePrice
    ensures var settled := SellAmount(current, amount).value;
            SellValue(current, amount, tradeVal, tradePrice) - Removed(current, settled, price) ==
            tradeVal - price * amount + Drift(current, amount, price, tradePrice, IsClose(current, amount))
  {
    DriftOf(current, amount, price, tradePrice, IsClose(current, amount));
    assert IsClose(current, current);
    hide IsClose;
  }

  /** A sell changes the value by the profit over the position's price, the cost and the drift. */
  lemma {:induction false} SellChangesValue(s: State, stock: string, tradeVal: real, cost: real, tradePrice: real)
    requires tradePrice > 0.0 && ValidState(s) && Sell(s, stock, tradeVal, cost, tradePrice).error == None
    ensures Value(Sell(s, stock, tradeVal, cost, tradePrice).state) - Value(s) ==
            tradeVal - PriceOf(s, stock) * Shares(tradeVal, tradePrice) - cost
            + SellDrift(s, stock, tradeVal, tradePrice)
  {
    hide Sell, Shares, SellAmount, SellValue, Removed, Drift, StockValue, IsClose, CashIn;
    SellMoves(s, stock, tradeVal, cost, tradePrice);
    SharesAtPrice(tradeVal, tradePrice);
    SettledGain(s.book[stock].amount, Shares(tradeVal, tradePrice), s.book[stock].price, tradeVal, tradePrice);
  }

  lemma {:induction false} MarkChangesValue(s: State, stock: string, price: real)
    requires stock in s.book
    ensures Value(Mark(s, stock, price).state) - Value(s) == s.book[stock].amount * (price - s.book[stock].price)
  {
    hide StockValue;
    var h := s.book[stock];
    StockValueAt(s.book, stock);
    StockValueSet(s.book, stock, h.(price := price));
    Distribute(price, h.price, h.amount);
  }

  // ----- what a trade records -----

  /** The holding of a stock is what it was, or it is held in neither state. */
  predicate SameHolding(s: State, s': State, stock: string) {
    (stock in s.book <==> stock in s'.book) && (stock in s.book ==> s'.book[stock] == s.book[stock])
  }

  function AmountOf(s: State, stock: string): real {
    if stock in s.book then s.book[stock].amount else 0.0
  }

  /** A new stock takes the price it is bought at, a later buy keeps the price carried; the bought value is
      paid with its cost, and nothing else changes. */
  lemma {:induction false} BuyRecords(
    s: State, stock: string, tradeVal: real, cost: real, tradePrice: real, other: string)
    requires tradePrice > 0.0
    ensures var s' := Buy(s, stock, tradeVal, cost, tradePrice);
            && stock in s'.book
            && s'.book[stock].price == (if stock in s.book then s.book[stock].price else tradePrice)
            && (s'.book[stock].amount - AmountOf(s, stock)) * tradePrice == tradeVal
            && s' == s.(book := s'.book, cash := s.cash - tradeVal - cost)
            && (other != stock ==> SameHolding(s, s', other))
  {
    SharesAtPrice(tradeVal, tradePrice);
    hide Shares;
  }

  /** What is paid out for a sell, wherever it is paid to. */
  function PaidTo(s: State, more: real): State
    requires ValidState(s)
  {
    if s.settle == CashSettle then s.(cashDelay := Some(s.cashDelay.value + more)) else s.(cash := s.cash + more)
  }

  /** A sell is refused for its amount exactly when its value is beyond that of the holding with its
      tolerance. One that is booked takes the lesser of its amount and the holding off the holding, which is
      dropped when hardly anything is left, pays the value of what it took, and changes nothing else. */
  lemma {:induction false} SellRecords(
    s: State, stock: string, tradeVal: real, cost: real, tradePrice: real, other: string)
    requires tradePrice > 0.0 && ValidState(s) && stock in s.book
    ensures var h, r := s.book[stock], Sell(s, stock, tradeVal, cost, tradePrice);
            && (r.error == Some(Oversold) <==>
                  && tradeVal > Val(h.amount, tradePrice)
                  && tradeVal > Val(h.amount + OversellTolerance(h.amount), tradePrice))
            && (r.error == Some(Oversold) ==> r.state == s)
            && (other != stock ==> SameHolding(s, r.state, other))
            && (r.error == None ==>
                  var sold := MinReal(h.amount, tradeVal / tradePrice);
                  && Val(sold, tradePrice) == MinReal(Val(h.amount, tradePrice), tradeVal)
                  && (stock !in r.state.book <==> IsClose(h.amount, sold))
                  && (stock in r.state.book ==> r.state.book[stock] == Holding(h.amount - sold, h.price))
                  && r.state == PaidTo(s, Val(sold, tradePrice) - cost).(book := r.state.book))
  {
    var h := s.book[stock];
    SharesAtPrice(tradeVal, tradePrice);
    assert Val(Shares(tradeVal, tradePrice), tradePrice) == tradeVal;
    ValLess(h.amount, Shares(tradeVal, tradePrice), tradePrice);
    ValLess(h.amount + OversellTolerance(h.amount), Shares(tradeVal, tradePrice), tradePrice);
    assert SellValue(h.amount, Shares(tradeVal, tradePrice), tradeVal, tradePrice) ==
           MinReal(Val(h.amount, tradePrice), tradeVal);
    hide Shares, IsClose, OversellTolerance, Val, SellValue;
  }

  lemma {:induction false} ValLess(a: real, b: real, price: real)
    requires price > 0.0
    ensures a < b <==> Val(a, price) < Val(b, price)
  {
    Scale(a, b, price);
  }

  // ----- tolerances -----

  /** A sell never leaves a negative holding, so the later check for one never fires. */
  lemma {:induction false} SellNeverNegative(s: State, stock: string, tradeVal: real, cost: real, tradePrice: real)
    requires tradePrice > 0.0 && ValidState(s)
    requires forall k :: k in s.book ==> s.book[k].amount >= 0.0
    ensures var r := Sell(s, stock, tradeVal, cost, tradePrice);
            && r.error != Some(NegativeRest)
            && forall k :: k in r.state.book ==> r.state.book[k].amount >= 0.0
  {
  }

  /** Below this holding an oversell of numpy's closeness is always within the tolerance. */
  const TOLERATED_HOLDING: real := 499999.999

  /** A sell of an amount close to the holding is rejected only above the holding and beyond the
      tolerance, and up to TOLERATED_HOLDING never. */
  lemma {:induction false} NearSellAccepted(current: real, amount: real)
    requires current >= 0.0 && IsClose(amount, current)
    ensures amount - current <= OversellTolerance(current) || current > TOLERATED_HOLDING
  {
  }

  /** The bound is exact: above it some close amount is rejected. */
  lemma {:induction false} NearSellBoundExact(current: real)
    requires current >= 0.0
    ensures (forall amount :: IsClose(amount, current) ==> amount - current <= OversellTolerance(current))
            <==> current <= TOLERATED_HOLDING
  {
    if current > TOLERATED_HOLDING {
      var amount := current + 0.00000001 + 0.00001 * current;
      assert IsClose(amount, current);
      assert amount - current > OversellTolerance(current);
    } else {
      forall amount | IsClose(amount, current)
        ensures amount - current <= OversellTolerance(current)
      {
        NearSellAccepted(current, amount);
      }
    }
  }

  /** The two closeness tests are relative to different numbers, so an amount the exchange treats as
      the whole holding is sold off completely exactly when it is not below the holding, or lies
      below it by no more than the test relative to the amount allows. */
  lemma {:induction false} NearSellClearsExactly(s: State, stock: string, tradeVal: real, cost: real, tradePrice: real)
    requires tradePrice > 0.0 && ValidState(s) && s.settle != OtherSettle && stock in s.book
    requires 0.0 <= s.book[stock].amount <= TOLERATED_HOLDING
    requires IsClose(Shares(tradeVal, tradePrice), s.book[stock].amount) && tradeVal >= 0.0
    ensures var r := Sell(s, stock, tradeVal, cost, tradePrice);
            var current, amount := s.book[stock].amount, Shares(tradeVal, tradePrice);
            && r.error == None
            && (stock !in r.state.book <==>
                  amount >= current || (current - amount) * 1.00001 <= 0.00000001 + 0.00001 * current)
  {
    var current, amount := s.book[stock].amount, Shares(tradeVal, tradePrice);
    NearSellAccepted(current, amount);
    assert amount >= 0.0;
    if amount <= current {
      assert IsClose(current, amount) <==> (current - amount) * 1.00001 <= 0.00000001 + 0.00001 * current;
    }
  }

  /** The whole of 100000 shares, ordered as 99999.000005: close enough for the exchange not to round
      it, but the position keeps the rest as a holding of its own. */
  lemma {:induction false} NearSellLeavesResidue()
    ensures var s := State(map["S" := Holding(100000.0, 1.0)], 0.0, None, NoSettle);
            && IsClose(99999.000005, 100000.0)
            && Sell(s, "S", 99999.000005, 0.0, 1.0).state.book == map["S" := Holding(0.999995, 1.0)]
  {
    var s := State(map["S" := Holding(100000.0, 1.0)], 0.0, None, NoSettle);
    assert Shares(99999.000005, 1.0) == 99999.000005;
    assert !IsClose(100000.0, 99999.000005);
    assert s.book["S" := Holding(0.999995, 1.0)] == map["S" := Holding(0.999995, 1.0)];
  }

  // ----- the object -----

  class Position {
    var book: Book
    var cash: real
    var cashDelay: Option<real>
    var settle: SettleType

    constructor (cash: real, book: Book)
      ensures Now() == State(book, cash, None, NoSettle)
    {
      this.book, this.cash, cashDelay, settle := book, cash, None, NoSettle;
    }

    function Now(): State
      reads this
    {
      State(book, cash, cashDelay, settle)
    }

    method BuyStock(stock: string, tradeVal: real, cost: real, tradePrice: real)
      requires tradePrice > 0.0
      modifies `book, `cash
      ensures Now() == Buy(old(Now()), stock, tradeVal, cost, tradePrice)
    {
      var amount := tradeVal / tradePrice;
      if stock !in book {
        book := book[stock := Holding(amount, tradePrice)];
      } else {
        book := book[stock := book[stock].(amount := book[stock].amount + amount)];
      }
      cash := cash - (tradeVal + cost);
    }

    method SellStock(stock: string, tradeVal: real, cost: real, tradePrice: real) returns (error: Option<Error>)
      requires tradePrice > 0.0 && ValidState(Now())
      modifies `book, `cash, `cashDelay
      ensures Outcome(Now(), error) == Sell(old(Now()), stock, tradeVal, cost, tradePrice)
    {
      if stock !in book {
        return Some(NotHeld);
      }
      var amount, value := tradeVal / tradePrice, tradeVal;
      var current := book[stock].amount;
      if amount > current {
        if amount - current > OversellTolerance(current) {
          return Some(Oversold);
        }
        amount := current;
        value := amount * tradePrice;
      }
      assert value == SellValue(current, Shares(tradeVal, tradePrice), tradeVal, tradePrice);
      if IsClose(current, amount) {
        book := book - {stock};
      } else {
        book := book[stock := book[stock].(amount := current - amount)];
        if book[stock].amount < -0.00001 {
          return Some(NegativeRest);
        }
      }
      var newCash := value - cost;
      match settle {
        case CashSettle => cashDelay := Some(cashDelay.value + newCash);
        case NoSettle => cash := cash + newCash;
        case OtherSettle => return Some(UnsupportedSettle);
      }
      error := None;
    }

    method UpdateStockPrice(stock: string, price: real) returns (error: Option<Error>)
      modifies `book
      ensures Outcome(Now(), error) == Mark(old(Now()), stock, price)
    {
      if stock !in book {
        return Some(NotHeld);
      }
      book := book[stock := book[stock].(price := price)];
      error := None;
    }

    method StartSettle(t: SettleType) returns (error: Option<Error>)
      modifies `settle, `cashDelay
      ensures Outcome(Now(), error) == SettleStart(old(Now()), t)
    {
      if settle != NoSettle {
        return Some(NestedSettle);
      }
      settle := t;
      if t == CashSettle {
        cashDelay := Some(0.0);
      }
      error := None;
    }

    method CommitSettle() returns (error: Option<Error>)
      requires ValidState(Now())
      modifies `settle, `cashDelay, `cash
      ensures Outcome(Now(), error) == SettleCommit(old(Now()))
    {
      if settle != NoSettle {
        if settle != CashSettle {
          return Some(UnsupportedSettle);
        }
        cash := cash + cashDelay.value;
        cashDelay := None;
        settle := NoSettle;
      }
      error := None;
    }

    method CalculateStockValue() returns (value: real)
      ensures value == StockValue(book)
    {
      value := 0.0;
      var rest := book;
      while rest != map[]
        invariant value + StockValue(rest) == StockValue(book)
        decreases |rest|
      {
        var k :| k in rest;
        StockValueAt(rest, k);
        value := value + rest[k].amount * rest[k].price;
        rest := rest - {k};
      }
    }

    method CalculateValue() returns (value: real)
      ensures value == Value(Now())
    {
      value := CalculateStockValue();
      value := value + (cash + if cashDelay.Some? then cashDelay.value else 0.0);
    }
  }
}
