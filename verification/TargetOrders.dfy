/** From target weights to target amounts, and from target amounts to orders
    (generate_amount_position_from_weight_position, get_real_deal_amount and
    generate_order_for_target_amount_position in quant_master/backtest/exchange.py). */
module TargetOrders {
  import opened Common
  import opened Exchange
  import opened RealArith

  /** What the exchange says of a stock in the step's interval. */
  datatype Listing = Listing(tradable: bool, price: real, factor: Option<real>)

  type Market = string -> Listing

  ghost predicate ValidMarket(market: Market) {
    forall k :: ValidListing(market(k))
  }

  predicate ValidListing(l: Listing) {
    l.price > 0.0 && (l.factor.Some? ==> l.factor.value > 0.0)
  }

  datatype WeightError = BadWeight | Overweight

  // ----- sums over stocks -----

  ghost function Total(m: map<string, real>): real
    decreases |m|
  {
    if m == map[] then 0.0
    else
      var k :| k in m;
      m[k] + Total(m - {k})
  }

  lemma {:induction false} TotalStep(m: map<string, real>) returns (k: string)
    requires m != map[]
    ensures k in m && Total(m) == m[k] + Total(m - {k})
  {
    k :| k in m && Total(m) == m[k] + Total(m - {k});
  }

  lemma {:induction false} TotalAt(m: map<string, real>, k: string)
    requires k in m
    ensures Total(m) == m[k] + Total(m - {k})
    decreases |m|
  {
    hide Total;
    var j := TotalStep(m);
    if j != k {
      TotalAt(m - {j}, k);
      TotalAt(m - {k}, j);
      assert m - {j} - {k} == m - {k} - {j};
    }
  }

  lemma {:induction false} TotalEmpty()
    ensures Total(map[]) == 0.0
  {
  }

  lemma {:induction false} TotalAdd(m: map<string, real>, k: string, x: real)
    requires k !in m
    ensures Total(m[k := x]) == Total(m) + x
  {
    hide Total;
    TotalAt(m[k := x], k);
    assert m[k := x] - {k} == m;
  }

  // ----- amounts from weights -----

  predicate WeightInRange(w: real) {
    0.0 <= w <= 1.0
  }

  function TradableWeights(weights: map<string, real>, market: Market): map<string, real> {
    map k | k in weights && market(k).tradable :: weights[k]
  }

  /** Floor division of the share of the cash by the price. */
  function Amount(cash: real, w: real, total: real, price: real): real
    requires total > 0.0 && price > 0.0
  {
    (cash * w / total / price).Floor as real
  }

  /** The stocks that receive cash. */
  predicate Funded(weights: map<string, real>, market: Market, k: string) {
    k in weights && weights[k] > 0.0 && market(k).tradable
  }

  ghost predicate AmountsFrom(amounts: map<string, real>, weights: map<string, real>, cash: real, market: Market)
    requires ValidMarket(market)
  {
    var total := Total(TradableWeights(weights, market));
    && (forall k :: k in amounts <==> Funded(weights, market, k))
    && (amounts != map[] ==> total > 0.0)
    && forall k :: k in amounts ==> total > 0.0 && amounts[k] == Amount(cash, weights[k], total, market(k).price)
  }

  lemma {:induction false} TotalPositive(m: map<string, real>, k: string)
    requires k in m && m[k] > 0.0 && forall j :: j in m ==> m[j] >= 0.0
    ensures Total(m) > 0.0
  {
    hide Total;
    TotalAt(m, k);
    TotalNonNegative(m - {k});
  }

  lemma {:induction false} TotalNonNegative(m: map<string, real>)
    requires forall j :: j in m ==> m[j] >= 0.0
    ensures Total(m) >= 0.0
    decreases |m|
  {
    hide Total;
    if m == map[] {
      TotalEmpty();
    } else {
      var k := TotalStep(m);
      TotalNonNegative(m - {k});
    }
  }

  /** The loop that checks the weights of the tradable stocks and adds them up. */
  method SumWeights(weights: map<string, real>, market: Market) returns (total: Option<real>)
    requires ValidMarket(market)
    ensures total == None <==> exists k :: k in weights && market(k).tradable && !WeightInRange(weights[k])
    ensures total.Some? ==> total.value == Total(TradableWeights(weights, market))
    ensures total.Some? ==> forall k :: k in TradableWeights(weights, market) ==> WeightInRange(weights[k])
  {
    hide Total;
    var sum := 0.0;
    var left, seen := weights.Keys, map[];
    TotalEmpty();
    while left != {}
      invariant left <= weights.Keys
      invariant forall k :: k in seen <==> k in weights && k !in left && market(k).tradable
      invariant forall k :: k in seen ==> seen[k] == weights[k] && WeightInRange(seen[k])
      invariant sum == Total(seen)
      decreases |left|
    {
      var k :| k in left;
      left := left - {k};
      if market(k).tradable {
        if weights[k] < 0.0 || weights[k] > 1.0 {
          return None;
        }
        TotalAdd(seen, k, weights[k]);
        sum := sum + weights[k];
        seen := seen[k := weights[k]];
      }
    }
    assert seen == TradableWeights(weights, market);
    total := Some(sum);
  }

  method GenerateAmounts(weights: map<string, real>, cash: real, market: Market)
    returns (r: Result<map<string, real>, WeightError>)
    requires ValidMarket(market)
    ensures r == Err(BadWeight) <==>
              exists k :: k in weights && market(k).tradable && (weights[k] < 0.0 || weights[k] > 1.0)
    ensures r == Err(Overweight) ==> Total(TradableWeights(weights, market)) - 1.0 >= 0.00001
    ensures r.Ok? ==> Total(TradableWeights(weights, market)) - 1.0 < 0.00001
    ensures r.Ok? ==> forall k :: k in r.value <==> k in weights && weights[k] > 0.0 && market(k).tradable
    ensures r.Ok? ==> AmountsFrom(r.value, weights, cash, market)
  {
    hide Total;
    var summed := SumWeights(weights, market);
    if summed == None {
      return Err(BadWeight);
    }
    var total := summed.value;
    ghost var seen := TradableWeights(weights, market);
    if total - 1.0 >= 0.00001 {
      return Err(Overweight);
    }
    var amounts: map<string, real> := map[];
    var left := weights.Keys;
    while left != {}
      invariant left <= weights.Keys
      invariant amounts != map[] ==> total > 0.0
      invariant forall k :: k in amounts <==> Funded(weights, market, k) && k !in left
      invariant forall k :: k in amounts ==>
                  total > 0.0 && amounts[k] == Amount(cash, weights[k], total, market(k).price)
      decreases |left|
    {
      var k :| k in left;
      left := left - {k};
      if weights[k] > 0.0 && market(k).tradable {
        TotalPositive(seen, k);
        assert ValidListing(market(k));
        amounts := amounts[k := Amount(cash, weights[k], total, market(k).price)];
      }
    }
    return Ok(amounts);
  }

  /** The value of the amounts at their prices, and the sum of the prices. */
  function Values(amounts: map<string, real>, market: Market): map<string, real> {
    map k | k in amounts :: Val(amounts[k], market(k).price)
  }

  function Prices(amounts: map<string, real>, market: Market): map<string, real> {
    map k | k in amounts :: market(k).price
  }

  function Share(cash: real, w: real, total: real): real
    requires total > 0.0
  {
    cash * w / total
  }

  lemma {:induction false} AmountWithinShare(cash: real, w: real, total: real, price: real)
    requires total > 0.0 && price > 0.0
    ensures Share(cash, w, total) - price < Val(Amount(cash, w, total, price), price) <= Share(cash, w, total)
  {
    var share, a := Share(cash, w, total), Amount(cash, w, total, price);
    assert a <= share / price < a + 1.0;
    hide Amount, Share;
    WithinOne(a, share, price);
  }

  lemma {:induction false} WithinOne(a: real, share: real, price: real)
    requires price > 0.0 && a <= share / price < a + 1.0
    ensures share - price < Val(a, price) <= share
  {
    BelowQuotient(a, price, share);
    BelowQuotient(a + 1.0, price, share);
    SumTimes(a, 1.0, price);
  }

  /** The amount of a stock is whole, and the greatest whole number of shares that its share of the cash buys. */
  lemma {:induction false} AmountIsGreatest(cash: real, w: real, total: real, price: real, k: int)
    requires total > 0.0 && price > 0.0
    ensures var a := Amount(cash, w, total, price);
            a.Floor as real == a && (k as real <= a <==> Val(k as real, price) <= Share(cash, w, total))
  {
    var shares := cash * w / total / price;
    FloorIsGreatest(shares, k);
    assert shares == Share(cash, w, total) / price;
    hide Share;
    BelowQuotient(k as real, price, Share(cash, w, total));
  }

  lemma {:induction false} FloorIsGreatest(x: real, k: int)
    ensures var n := x.Floor as real;
            n.Floor as real == n && (k as real <= n <==> k as real <= x)
  {
    var i := x.Floor;
    FloorOfWhole(i);
    if k > i {
      WholeOrder(i + 1, k);
    } else {
      WholeOrder(k, i);
    }
  }

  lemma {:induction false} FloorOfWhole(i: int)
    ensures (i as real).Floor == i
  {
  }

  lemma {:induction false} WholeOrder(i: int, j: int)
    requires i <= j
    ensures i as real <= j as real
  {
  }

  /** The weights of the stocks in a part of the amounts, as shares of the cash. */
  lemma {:induction false} ShareSum(x: real, y: real, w: real, cash: real, total: real)
    requires total > 0.0 && x == Share(cash, y, total)
    ensures x + Share(cash, w, total) == Share(cash, y + w, total)
  {
    SumTimes(y, w, cash / total);
    assert Share(cash, y, total) == y * (cash / total);
    assert Share(cash, w, total) == w * (cash / total);
    assert Share(cash, y + w, total) == (y + w) * (cash / total);
  }

  lemma {:induction false} ValuesAgainstShares(
      amounts: map<string, real>, weights: map<string, real>, cash: real, total: real, market: Market)
    requires ValidMarket(market) && total > 0.0
    requires forall k :: k in amounts ==>
               k in weights && amounts[k] == Amount(cash, weights[k], total, market(k).price)
    ensures var shared := Share(cash, Total(map k | k in amounts :: weights[k]), total);
            && Total(Values(amounts, market)) <= shared
            && shared - Total(Prices(amounts, market)) <= Total(Values(amounts, market))
            && (amounts != map[] ==> shared - Total(Prices(amounts, market)) < Total(Values(amounts, market)))
    decreases |amounts|
  {
    hide Total, Share, Amount, Val;
    var ws := map k | k in amounts :: weights[k];
    if amounts == map[] {
      assert ws == map[] && Values(amounts, market) == map[] && Prices(amounts, market) == map[];
      TotalEmpty();
      ShareZero(cash, total);
    } else {
      var k :| k in amounts;
      var rest := amounts - {k};
      assert ws - {k} == map j | j in rest :: weights[j];
      assert Values(amounts, market) - {k} == Values(rest, market);
      assert Prices(amounts, market) - {k} == Prices(rest, market);
      assert ValidListing(market(k));
      TotalAt(ws, k);
      TotalAt(Values(amounts, market), k);
      TotalAt(Prices(amounts, market), k);
      ValuesAgainstShares(rest, weights, cash, total, market);
      AmountWithinShare(cash, weights[k], total, market(k).price);
      ShareSum(Share(cash, Total(ws - {k}), total), Total(ws - {k}), weights[k], cash, total);
    }
  }

  lemma {:induction false} ShareZero(cash: real, total: real)
    requires total > 0.0
    ensures Share(cash, 0.0, total) == 0.0 && Share(cash, total, total) == cash
  {
    QuotientTimes(cash, total);
  }

  lemma {:induction false} SameTotal(small: map<string, real>, big: map<string, real>)
    requires forall k :: k in small ==> k in big && big[k] == small[k]
    requires forall k :: k in big && k !in small ==> big[k] == 0.0
    ensures Total(small) == Total(big)
    decreases |big|
  {
    hide Total;
    if big == map[] {
      assert small == map[];
    } else {
      var k := TotalStep(big);
      SameTotal(small - {k}, big - {k});
      if k in small {
        TotalAt(small, k);
      } else {
        assert small - {k} == small;
      }
    }
  }

  /** The amounts cost no more than the given cash in all, and use it up but for less than one share of
      each stock. */
  lemma {:induction false} AmountsWithinCash(
      amounts: map<string, real>, weights: map<string, real>, cash: real, market: Market)
    requires ValidMarket(market) && AmountsFrom(amounts, weights, cash, market)
    requires forall k :: k in weights && market(k).tradable ==> WeightInRange(weights[k])
    requires amounts != map[]
    ensures cash - Total(Prices(amounts, market)) < Total(Values(amounts, market)) <= cash
    ensures forall k :: k in amounts ==> amounts[k].Floor as real == amounts[k]
  {
    forall k | k in amounts
      ensures amounts[k].Floor as real == amounts[k]
    {
    }
    hide Total, Amount;
    var tradable := TradableWeights(weights, market);
    var total := Total(tradable);
    var ws := map k | k in amounts :: weights[k];
    SameTotal(ws, tradable);
    ShareZero(cash, total);
    ValuesAgainstShares(amounts, weights, cash, total, market);
  }

  // ----- orders from amounts -----

  /** The signed amount to deal: positive buys. A target of zero sells everything, unrounded. */
  function RealDealAmount(r: Rules, current: real, target: real, factor: Option<real>): Result<real, DealError>
    requires ValidRules(r) && (factor.Some? ==> factor.value > 0.0)
  {
    if current == target then Ok(0.0)
    else if current < target then RoundAmount(r, target - current, factor)
    else if target == 0.0 then Ok(-current)
    else
      match RoundAmount(r, current - target, factor)
      case Ok(d) => Ok(-d)
      case Err(e) => Err(e)
  }

  datatype Request = Request(stock: string, dir: Direction, amount: real, factor: Option<real>)

  function Get(m: map<string, real>, k: string): real {
    if k in m then m[k] else 0.0
  }

  /** What a step is asked to do. */
  datatype Plan = Plan(rules: Rules, target: map<string, real>, current: map<string, real>)

  ghost predicate ValidPlan(p: Plan, market: Market) {
    ValidRules(p.rules) && ValidMarket(market)
  }

  function DealFor(p: Plan, market: Market, stock: string): Result<real, DealError>
    requires ValidRules(p.rules) && ValidListing(market(stock))
  {
    if !market(stock).tradable then Ok(0.0)
    else RealDealAmount(p.rules, Get(p.current, stock), Get(p.target, stock), market(stock).factor)
  }

  function RequestFor(p: Plan, market: Market, stock: string, dir: Direction): seq<Request>
    requires ValidRules(p.rules) && ValidListing(market(stock))
  {
    match DealFor(p, market, stock)
    case Err(_) => []
    case Ok(d) =>
      if dir == BUY && d > 0.0 then [Request(stock, BUY, d, market(stock).factor)]
      else if dir == SELL && d < 0.0 then [Request(stock, SELL, AbsReal(d), market(stock).factor)]
      else []
  }

  ghost function Requests(p: Plan, market: Market, ids: seq<string>, dir: Direction): seq<Request>
    requires ValidPlan(p, market)
  {
    if ids == [] then []
    else Requests(p, market, ids[..|ids| - 1], dir) + RequestFor(p, market, ids[|ids| - 1], dir)
  }

  /** The ids are the stocks of both positions, in the order a seeded shuffle left them in. */
  method GenerateOrders(
      p: Plan, market: Market, ids: seq<string>) returns (orders: seq<Request>, error: Option<DealError>)
    requires ValidPlan(p, market)
    ensures error == None ==> forall k :: k in ids ==> DealFor(p, market, k).Ok?
    ensures error.Some? ==> exists k :: k in ids && DealFor(p, market, k) == Err(error.value)
    ensures error == None ==> orders == Requests(p, market, ids, SELL) + Requests(p, market, ids, BUY)
  {
    hide RealDealAmount;
    var buys: seq<Request>, sells: seq<Request> := [], [];
    for i := 0 to |ids|
      invariant forall j :: 0 <= j < i ==> DealFor(p, market, ids[j]).Ok?
      invariant buys == Requests(p, market, ids[..i], BUY)
      invariant sells == Requests(p, market, ids[..i], SELL)
    {
      var stock := ids[i];
      assert ids[..i + 1][..i] == ids[..i] && ids[..i + 1][i] == stock;
      assert ValidListing(market(stock));
      if market(stock).tradable {
        var factor := market(stock).factor;
        var deal := RealDealAmount(p.rules, Get(p.current, stock), Get(p.target, stock), factor);
        if deal.Err? {
          assert DealFor(p, market, stock) == Err(deal.error);
          return [], Some(deal.error);
        }
        if deal.value > 0.0 {
          buys := buys + [Request(stock, BUY, deal.value, factor)];
        } else if deal.value < 0.0 {
          sells := sells + [Request(stock, SELL, AbsReal(deal.value), factor)];
        }
      }
    }
    assert ids[..|ids|] == ids;
    return sells + buys, None;
  }

  // ----- what the orders achieve -----

  function Signed(q: Request): real {
    if q.dir == BUY then q.amount else -q.amount
  }

  /** The position after dealing the orders in full, one after the other. */
  function Dealt(position: map<string, real>, orders: seq<Request>): map<string, real>
    decreases |orders|
  {
    if orders == [] then position
    else Dealt(position[orders[0].stock := Get(position, orders[0].stock) + Signed(orders[0])], orders[1..])
  }

  function Net(orders: seq<Request>, k: string): real {
    if orders == [] then 0.0
    else (if orders[0].stock == k then Signed(orders[0]) else 0.0) + Net(orders[1..], k)
  }

  lemma {:induction false} DealtIsNet(position: map<string, real>, orders: seq<Request>, k: string)
    ensures Get(Dealt(position, orders), k) == Get(position, k) + Net(orders, k)
    decreases |orders|
  {
    if orders != [] {
      var q := orders[0];
      DealtIsNet(position[q.stock := Get(position, q.stock) + Signed(q)], orders[1..], k);
    }
  }

  lemma {:induction false} NetAppend(a: seq<Request>, b: seq<Request>, k: string)
    ensures Net(a + b, k) == Net(a, k) + Net(b, k)
    decreases |a|
  {
    if a == [] {
      assert a + b == b;
    } else {
      assert (a + b)[0] == a[0] && (a + b)[1..] == a[1..] + b;
      NetAppend(a[1..], b, k);
    }
  }

  predicate Distinct(ids: seq<string>) {
    forall i, j :: 0 <= i < j < |ids| ==> ids[i] != ids[j]
  }

  lemma {:induction false} NetOfOne(p: Plan, market: Market, stock: string, dir: Direction, k: string)
    requires ValidPlan(p, market) && ValidListing(market(stock)) && DealFor(p, market, stock).Ok?
    ensures Net(RequestFor(p, market, stock, dir), k) ==
            var d := DealFor(p, market, stock).value;
            if stock == k && ((dir == BUY && d > 0.0) || (dir == SELL && d < 0.0)) then d else 0.0
  {
    hide RealDealAmount;
    var one := RequestFor(p, market, stock, dir);
    assert one == [] || one[1..] == [];
  }

  lemma {:induction false} NetOfRequests(p: Plan, market: Market, ids: seq<string>, dir: Direction, k: string)
    requires ValidPlan(p, market) && Distinct(ids) && (forall j :: j in ids ==> DealFor(p, market, j).Ok?)
    ensures k !in ids ==> Net(Requests(p, market, ids, dir), k) == 0.0
    ensures k in ids ==>
              var d := DealFor(p, market, k).value;
              Net(Requests(p, market, ids, dir), k) ==
              if (dir == BUY && d > 0.0) || (dir == SELL && d < 0.0) then d else 0.0
    decreases |ids|
  {
    hide DealFor, RequestFor, Net;
    if ids == [] {
      NetOfNothing(k);
    } else {
      var n := |ids| - 1;
      var last := ids[n];
      assert ids == ids[..n] + [last];
      assert ValidListing(market(last));
      NetOfRequests(p, market, ids[..n], dir, k);
      NetOfOne(p, market, last, dir, k);
      NetAppend(Requests(p, market, ids[..n], dir), RequestFor(p, market, last, dir), k);
    }
  }

  lemma {:induction false} NetOfNothing(k: string)
    ensures Net([], k) == 0.0
  {
  }

  /** The sum of both lists is the signed deal of each stock. */
  lemma {:induction false} OrdersDealEachOnce(p: Plan, market: Market, ids: seq<string>, k: string)
    requires ValidPlan(p, market) && Distinct(ids) && (forall j :: j in ids ==> DealFor(p, market, j).Ok?)
    ensures var orders := Requests(p, market, ids, SELL) + Requests(p, market, ids, BUY);
            Get(Dealt(p.current, orders), k) ==
            Get(p.current, k) + if k in ids then DealFor(p, market, k).value else 0.0
  {
    hide DealFor, Requests, Net, Dealt;
    var sells, buys := Requests(p, market, ids, SELL), Requests(p, market, ids, BUY);
    NetOfRequests(p, market, ids, SELL, k);
    NetOfRequests(p, market, ids, BUY, k);
    NetAppend(sells, buys, k);
    DealtIsNet(p.current, sells + buys, k);
  }

  /** How far a holding may stay short of its move, and go past its target. */
  function Short(r: Rules, factor: Option<real>): real
    requires factor.Some? ==> factor.value > 0.0
  {
    if Rounds(r) && factor.Some? then (r.unit.value - 0.1) / factor.value else 0.0
  }

  function Past(r: Rules, factor: Option<real>): real
    requires factor.Some? ==> factor.value > 0.0
  {
    if Rounds(r) && factor.Some? then 0.1 / factor.value else 0.0
  }

  lemma {:induction false} RoundedMove(r: Rules, move: real, factor: Option<real>)
    requires ValidRules(r) && (factor.Some? ==> factor.value > 0.0)
    requires RoundAmount(r, move, factor).Ok?
    ensures var d := RoundAmount(r, move, factor).value;
            && d <= move + Past(r, factor)
            && (Rounds(r) ==> d > move - Short(r, factor))
            && (!Rounds(r) ==> d == move)
  {
    if Rounds(r) {
      RoundUp(move, factor.value, r.unit.value);
      RoundDown(move, factor.value, r.unit.value);
    }
  }

  /** Dealing the generated orders takes every tradable holding to its target, but for what rounding to
      units leaves short or goes past; a target of zero is met exactly, and so is every target without
      rounding; what may not be traded, or is in neither position, keeps its amount. */
  lemma {:induction false} TargetsReached(p: Plan, market: Market, ids: seq<string>, k: string)
    requires ValidPlan(p, market) && Distinct(ids) && (forall j :: j in ids ==> DealFor(p, market, j).Ok?)
    ensures var orders := Requests(p, market, ids, SELL) + Requests(p, market, ids, BUY);
            var dealt := Dealt(p.current, orders);
            var before := if k in p.current then p.current[k] else 0.0;
            var target := if k in p.target then p.target[k] else 0.0;
            var after := if k in dealt then dealt[k] else 0.0;
            var short, past := Short(p.rules, market(k).factor), Past(p.rules, market(k).factor);
            if k !in ids || !market(k).tradable then after == before
            else if before == target || !Rounds(p.rules) || (target == 0.0 && before > 0.0) then after == target
            else if before < target then target - short < after <= target + past
            else target - past <= after < target + short
  {
    OrdersDealEachOnce(p, market, ids, k);
    assert Get(p.current, k) == if k in p.current then p.current[k] else 0.0;
    hide Requests, Dealt;
    assert ValidListing(market(k));
    if k in ids && market(k).tradable {
      var before, target, factor := Get(p.current, k), Get(p.target, k), market(k).factor;
      hide Get, Short, Past, RoundAmount;
      if before < target {
        RoundedMove(p.rules, target - before, factor);
      } else if before > target && target != 0.0 {
        RoundedMove(p.rules, before - target, factor);
      }
    }
  }

  /** The order is the one its stock's deal asks for in the direction. */
  predicate FromDeal(p: Plan, market: Market, ids: seq<string>, dir: Direction, q: Request)
    requires ValidRules(p.rules)
  {
    && q.stock in ids && ValidListing(market(q.stock)) && DealFor(p, market, q.stock).Ok?
    && q.dir == dir && q.amount > 0.0
    && (dir == BUY <==> DealFor(p, market, q.stock).value > 0.0)
  }

  lemma {:induction false} RequestFromDeal(p: Plan, market: Market, ids: seq<string>, dir: Direction, stock: string)
    requires ValidPlan(p, market) && stock in ids && ValidListing(market(stock))
    ensures var one := RequestFor(p, market, stock, dir);
            |one| <= 1 && forall i :: 0 <= i < |one| ==> one[i].stock == stock && FromDeal(p, market, ids, dir, one[i])
  {
    hide RealDealAmount;
  }

  predicate AllFromDeals(p: Plan, market: Market, ids: seq<string>, dir: Direction, qs: seq<Request>)
    requires ValidRules(p.rules)
  {
    forall q :: q in qs ==> FromDeal(p, market, ids, dir, q)
  }

  predicate OnePerStock(qs: seq<Request>) {
    forall i, j :: 0 <= i < j < |qs| ==> qs[i].stock != qs[j].stock
  }

  lemma {:induction false} RequestsOf(p: Plan, market: Market, ids: seq<string>, dir: Direction)
    requires ValidPlan(p, market) && Distinct(ids)
    ensures AllFromDeals(p, market, ids, dir, Requests(p, market, ids, dir))
    ensures OnePerStock(Requests(p, market, ids, dir))
    decreases |ids|
  {
    if ids != [] {
      var n := |ids| - 1;
      var last := ids[n];
      assert ids == ids[..n] + [last] && last !in ids[..n];
      RequestsOf(p, market, ids[..n], dir);
      assert ValidListing(market(last));
      RequestFromDeal(p, market, ids, dir, last);
      var before, one := Requests(p, market, ids[..n], dir), RequestFor(p, market, last, dir);
      assert Requests(p, market, ids, dir) == before + one;
      hide RequestFor, DealFor, ValidListing, ValidMarket, Requests;
      forall q | q in before
        ensures FromDeal(p, market, ids, dir, q) && q.stock != last
      {
        assert FromDeal(p, market, ids[..n], dir, q);
      }
      assert AllFromDeals(p, market, ids, dir, before + one);
      assert forall i :: 0 <= i < |before| ==> before[i] in before;
      assert OnePerStock(before + one);
    }
  }

  /** Every order has a positive amount and is the only one of its stock, and no sell follows a buy. */
  lemma {:induction false} OrdersWellFormed(p: Plan, market: Market, ids: seq<string>)
    requires ValidPlan(p, market) && Distinct(ids)
    ensures var orders := Requests(p, market, ids, SELL) + Requests(p, market, ids, BUY);
            && (forall i :: 0 <= i < |orders| ==> orders[i].amount > 0.0 && orders[i].stock in ids)
            && (forall i, j :: 0 <= i < j < |orders| ==> orders[i].stock != orders[j].stock)
            && (forall i, j :: 0 <= i < j < |orders| && orders[i].dir == BUY ==> orders[j].dir == BUY)
  {
    hide Requests, DealFor;
    var sells, buys := Requests(p, market, ids, SELL), Requests(p, market, ids, BUY);
    RequestsOf(p, market, ids, SELL);
    RequestsOf(p, market, ids, BUY);
    var orders := sells + buys;
    forall i | 0 <= i < |orders|
      ensures orders[i].dir == if i < |sells| then SELL else BUY
      ensures orders[i].amount > 0.0 && orders[i].stock in ids
    {
      var q := orders[i];
      assert if i < |sells| then q in sells else q in buys;
    }
    forall i, j | 0 <= i < |sells| && 0 <= j < |buys|
      ensures sells[i].stock != buys[j].stock
    {
      assert sells[i] in sells && buys[j] in buys;
      assert FromDeal(p, market, ids, SELL, sells[i]) && FromDeal(p, market, ids, BUY, buys[j]);
    }
  }
}
