/** The order engine (quant_master/backtest/exchange.py): an order is clipped by the volume limits, the
    holding, the cash and the trade unit, and then booked. */
module Exchange {
  import opened Common
  import opened Position
  import opened Account
  import opened RealArith

  datatype Rules = Rules(unit: Option<real>, adjustedPrice: bool, openCost: real, closeCost: real,
                         minCost: real, impactCost: real)

  /** A volume limit with the value quoted for the order's interval. */
  datatype Limit = Current(value: real) | Cum(value: real) | Unsupported

  /** What is quoted for an order's stock, interval and direction. The volume is absent when it is
      zero or missing. */
  datatype Quote = Quote(tradable: bool, price: real, volume: Option<real>, factor: Option<real>,
                         buyLimits: Option<seq<Limit>>, sellLimits: Option<seq<Limit>>)

  datatype Ask = Ask(stock: string, dir: Direction, amount: real, quote: Quote)

  /** What the exchange looks at in the position: the amount held of the stock, and the cash. */
  datatype Holder = Holder(amount: real, cash: real)

  datatype DealError =
    | EmptyLimits           // the least of no limits
    | UnsupportedLimit
    | MissingFactor
    | DivisionByZero
    | Rejected(reason: Error)

  datatype Clipped = Clipped(amount: real, error: Option<DealError>)

  predicate ValidRules(r: Rules) {
    && (r.unit.Some? ==> r.unit.value > 0.0)
    && r.openCost >= 0.0 && r.closeCost >= 0.0 && r.minCost >= 0.0 && r.impactCost >= 0.0
  }

  predicate ValidAsk(a: Ask) {
    && a.amount >= 0.0 && a.quote.price > 0.0
    && (a.quote.factor.Some? ==> a.quote.factor.value > 0.0)
    && (a.quote.volume.Some? ==> a.quote.volume.value > 0.0)
  }

  // ----- trade units -----

  predicate Rounds(r: Rules) {
    !r.adjustedPrice && r.unit.Some?
  }

  /** The unadjusted shares of an amount, plus the 0.1 that is added before rounding down. */
  function Unadjusted(x: real, factor: real): real {
    x * factor + 0.1
  }

  function Units(shares: real, unit: real): int
    requires unit > 0.0
  {
    (shares / unit).Floor
  }

  function Adjusted(units: int, unit: real, factor: real): real
    requires factor > 0.0
  {
    units as real * unit / factor
  }

  /** The amount in whole trade units. */
  function RoundUnit(x: real, factor: real, unit: real): real
    requires factor > 0.0 && unit > 0.0
  {
    Adjusted(Units(Unadjusted(x, factor), unit), unit, factor)
  }

  function RoundAmount(r: Rules, x: real, factor: Option<real>): Result<real, DealError>
    requires ValidRules(r) && (factor.Some? ==> factor.value > 0.0)
  {
    if !Rounds(r) then Ok(x)
    else if factor == None then Err(MissingFactor)
    else Ok(RoundUnit(x, factor.value, r.unit.value))
  }

  lemma {:induction false} UnitsExactly(shares: real, unit: real, k: int)
    requires unit > 0.0
    ensures k as real * unit <= shares <==> k <= Units(shares, unit)
  {
    BelowQuotient(k as real, unit, shares);
  }

  /** How a rounded amount compares with another one, seen through the unadjusted shares. */
  lemma {:induction false} CompareRounded(units: int, unit: real, factor: real, z: real)
    requires factor > 0.0 && unit > 0.0
    ensures Adjusted(units, unit, factor) * factor == units as real * unit
    ensures z <= Adjusted(units, unit, factor) <==> z * factor <= units as real * unit
    ensures z < Adjusted(units, unit, factor) <==> z * factor < units as real * unit
  {
    QuotientTimes(units as real * unit, factor);
    BelowQuotient(z, factor, units as real * unit);
  }

  /** An amount that differs by some unadjusted shares. */
  lemma {:induction false} Shifted(x: real, shift: real, factor: real)
    requires factor > 0.0
    ensures (x + shift / factor) * factor == x * factor + shift
  {
    SumTimes(x, shift / factor, factor);
    QuotientTimes(shift, factor);
  }

  /** Rounding goes up by at most 0.1 of an unadjusted share, and never below zero. */
  lemma {:induction false} RoundUp(x: real, factor: real, unit: real)
    requires factor > 0.0 && unit > 0.0
    ensures RoundUnit(x, factor, unit) <= x + 0.1 / factor
    ensures x >= 0.0 ==> RoundUnit(x, factor, unit) >= 0.0
  {
    var shares := Unadjusted(x, factor);
    var units := Units(shares, unit);
    UnitsExactly(shares, unit, units);
    UnitsExactly(shares, unit, 0);
    assert x >= 0.0 ==> shares >= 0.0 by {
      if x >= 0.0 {
        ProductSign(x, factor);
      }
    }
    assert shares == x * factor + 0.1;
    hide Units, Adjusted, Unadjusted;
    CompareRounded(units, unit, factor, x + 0.1 / factor);
    CompareRounded(units, unit, factor, 0.0);
    Shifted(x, 0.1, factor);
    if units >= 0 {
      ProductSign(units as real, unit);
    }
  }

  /** Rounding goes down by less than a unit, less the 0.1. */
  lemma {:induction false} RoundDown(x: real, factor: real, unit: real)
    requires factor > 0.0 && unit > 0.0
    ensures RoundUnit(x, factor, unit) > x - (unit - 0.1) / factor
  {
    var shares, shift := Unadjusted(x, factor), 0.1 - unit;
    var units := Units(shares, unit);
    UnitsExactly(shares, unit, units + 1);
    SumTimes(units as real, 1.0, unit);
    assert shares == x * factor + 0.1;
    assert shift / factor == -((unit - 0.1) / factor);
    hide Units, Adjusted, Unadjusted;
    CompareRounded(units, unit, factor, x + shift / factor);
    Shifted(x, shift, factor);
  }

  /** The result is the greatest whole number of units not above the unadjusted amount plus 0.1. */
  lemma {:induction false} RoundIsGreatest(x: real, factor: real, unit: real, k: int)
    requires factor > 0.0 && unit > 0.0
    ensures Adjusted(k, unit, factor) <= RoundUnit(x, factor, unit) <==> k as real * unit <= x * factor + 0.1
  {
    var units := Units(Unadjusted(x, factor), unit);
    UnitsExactly(Unadjusted(x, factor), unit, k);
    assert Unadjusted(x, factor) == x * factor + 0.1;
    hide Units, Adjusted, Unadjusted;
    CompareRounded(k, unit, factor, 0.0);
    CompareRounded(units, unit, factor, Adjusted(k, unit, factor));
    Scale(k as real, units as real, unit);
  }

  /** An exhausted amount stays exhausted exactly when the unit is more than 0.1 of a share. */
  lemma {:induction false} RoundZeroExactly(factor: real, unit: real)
    requires factor > 0.0 && unit > 0.0
    ensures RoundUnit(0.0, factor, unit) == 0.0 <==> unit > 0.1
  {
    assert Unadjusted(0.0, factor) == 0.1;
    var units := Units(0.1, unit);
    UnitsExactly(0.1, unit, 1);
    UnitsExactly(0.1, unit, 0);
    hide Units, Adjusted, Unadjusted;
    CompareRounded(units, unit, factor, 0.0);
    Scale(0.0, units as real, unit);
  }

  /** Rounding twice is rounding once exactly when the unit is more than 0.1 of a share. */
  lemma {:induction false} RoundTwice(x: real, factor: real, unit: real)
    requires factor > 0.0 && unit > 0.0
    ensures var once := RoundUnit(x, factor, unit);
            RoundUnit(once, factor, unit) == once <==> unit > 0.1
  {
    var once, k := RoundUnit(x, factor, unit), Units(Unadjusted(x, factor), unit);
    var j := Units(Unadjusted(once, factor), unit);
    CompareRounded(k, unit, factor, once);
    assert Unadjusted(once, factor) == k as real * unit + 0.1;
    UnitsExactly(Unadjusted(once, factor), unit, k);
    UnitsExactly(Unadjusted(once, factor), unit, k + 1);
    SumTimes(k as real, 1.0, unit);
    assert j == k <==> unit > 0.1;
    hide Units, Adjusted, Unadjusted;
    CompareRounded(j, unit, factor, once);
    Scale(k as real, j as real, unit);
  }

  // ----- volume limits -----

  function Limits(a: Ask): Option<seq<Limit>> {
    if a.dir == BUY then a.quote.buyLimits else a.quote.sellLimits
  }

  /** What a limit leaves after the amount already dealt. */
  function Headroom(l: Limit, dealt: real): real
    requires !l.Unsupported?
  {
    match l
    case Current(v) => v
    case Cum(v) => v - dealt
  }

  predicate Within(x: real, limits: seq<Limit>, dealt: real)
  {
    forall i :: 0 <= i < |limits| && !limits[i].Unsupported? ==> x <= Headroom(limits[i], dealt)
  }

  function LeastHeadroom(limits: seq<Limit>, dealt: real): (m: real)
    requires limits != [] && forall i :: 0 <= i < |limits| ==> !limits[i].Unsupported?
    ensures Within(m, limits, dealt)
    ensures exists i :: 0 <= i < |limits| && m == Headroom(limits[i], dealt)
  {
    var n := |limits| - 1;
    if n == 0 then Headroom(limits[0], dealt)
    else MinReal(LeastHeadroom(limits[..n], dealt), Headroom(limits[n], dealt))
  }

  lemma {:induction false} LeastStep(limits: seq<Limit>, i: nat, dealt: real)
    requires i < |limits| && forall j :: 0 <= j < |limits| ==> !limits[j].Unsupported?
    ensures LeastHeadroom(limits[..i + 1], dealt) ==
            if i == 0 then Headroom(limits[0], dealt)
            else MinReal(LeastHeadroom(limits[..i], dealt), Headroom(limits[i], dealt))
  {
    assert limits[..i + 1][..i] == limits[..i];
  }

  function ClipByVolume(amount: real, limits: Option<seq<Limit>>, dealt: real): Clipped {
    if limits == None then Clipped(amount, None)
    else if exists i :: 0 <= i < |limits.value| && limits.value[i].Unsupported? then
      Clipped(amount, Some(UnsupportedLimit))
    else if limits.value == [] then Clipped(amount, Some(EmptyLimits))
    else Clipped(MaxReal(MinReal(LeastHeadroom(limits.value, dealt), amount), 0.0), None)
  }

  /** The clipped amount is the most of the order that every limit has room for, and nothing when one
      of them is exhausted. */
  lemma {:induction false} ClipIsMost(amount: real, limits: seq<Limit>, dealt: real, x: real)
    requires amount >= 0.0 && ClipByVolume(amount, Some(limits), dealt).error == None
    ensures var c := ClipByVolume(amount, Some(limits), dealt).amount;
            && 0.0 <= c <= amount
            && (x > 0.0 ==> (x <= c <==> x <= amount && Within(x, limits, dealt)))
  {
    var m := LeastHeadroom(limits, dealt);
    if x > 0.0 && Within(x, limits, dealt) {
      var i :| 0 <= i < |limits| && m == Headroom(limits[i], dealt);
      assert x <= m;
    }
  }

  // ----- the volume threshold -----

  /** What limits the volume of which field: "current" values are summed over the interval, "cum" values
      are the last ones in it. */
  datatype LimitRule = LimitRule(kind: string, field: string)

  /** The volume threshold an exchange is set up with: none, one rule, or rules by key. */
  datatype Threshold = NoThreshold | Single(rule: LimitRule) | Keyed(items: seq<(string, LimitRule)>)

  function KeyOf(dir: Direction): string {
    if dir == BUY then "buy" else "sell"
  }

  /** The rules whose key covers the direction, in order. */
  function RulesFor(items: seq<(string, LimitRule)>, dir: Direction): seq<LimitRule> {
    if items == [] then []
    else
      var last := items[|items| - 1];
      RulesFor(items[..|items| - 1], dir) + if last.0 == KeyOf(dir) || last.0 == "all" then [last.1] else []
  }

  function ItemsOf(t: Threshold): seq<(string, LimitRule)>
    requires t != NoThreshold
  {
    if t.Single? then [("all", t.rule)] else t.items
  }

  function ThresholdRules(t: Threshold, dir: Direction): Option<seq<LimitRule>> {
    if t == NoThreshold then None else Some(RulesFor(ItemsOf(t), dir))
  }

  /** The loop that sorts the rules into those of buying and those of selling, and collects the fields. */
  method GetVolLimit(t: Threshold)
    returns (buy: Option<seq<LimitRule>>, sell: Option<seq<LimitRule>>, fields: set<string>)
    ensures buy == ThresholdRules(t, BUY) && sell == ThresholdRules(t, SELL)
    ensures t == NoThreshold ==> fields == {}
    ensures t != NoThreshold ==>
              forall f :: f in fields <==> exists i :: 0 <= i < |ItemsOf(t)| && ItemsOf(t)[i].1.field == f
  {
    fields := {};
    if t == NoThreshold {
      return None, None, fields;
    }
    var items := if t.Single? then [("all", t.rule)] else t.items;
    var buys: seq<LimitRule>, sells: seq<LimitRule> := [], [];
    for i := 0 to |items|
      invariant buys == RulesFor(items[..i], BUY) && sells == RulesFor(items[..i], SELL)
      invariant forall f :: f in fields <==> exists j :: 0 <= j < i && items[j].1.field == f
    {
      var (key, rule) := items[i];
      assert items[..i + 1][..i] == items[..i];
      fields := fields + {rule.field};
      if key in ["buy", "all"] {
        buys := buys + [rule];
      }
      if key in ["sell", "all"] {
        sells := sells + [rule];
      }
    }
    assert items[..|items|] == items;
    return Some(buys), Some(sells), fields;
  }

  /** The limit a rule gives an order, from the sums and the last values quoted for its interval. */
  function Quoted(rule: LimitRule, sums: string -> real, lasts: string -> real): Limit {
    if rule.kind == "current" then Current(sums(rule.field))
    else if rule.kind == "cum" then Cum(lasts(rule.field))
    else Unsupported
  }

  function QuotedLimits(t: Threshold, dir: Direction, sums: string -> real, lasts: string -> real): Option<seq<Limit>> {
    match ThresholdRules(t, dir)
    case None => None
    case Some(rules) => Some(seq(|rules|, i requires 0 <= i < |rules| => Quoted(rules[i], sums, lasts)))
  }

  predicate HasKey(items: seq<(string, LimitRule)>, key: string) {
    exists i :: 0 <= i < |items| && items[i].0 == key
  }

  lemma {:induction false} NoRulesExactly(items: seq<(string, LimitRule)>, dir: Direction)
    ensures RulesFor(items, dir) == [] <==> !HasKey(items, "all") && !HasKey(items, KeyOf(dir))
    decreases |items|
  {
    if items != [] {
      var n := |items| - 1;
      NoRulesExactly(items[..n], dir);
      assert forall key :: HasKey(items, key) <==> HasKey(items[..n], key) || items[n].0 == key by {
        forall key
          ensures HasKey(items, key) <==> HasKey(items[..n], key) || items[n].0 == key
        {
          if HasKey(items[..n], key) {
            var i :| 0 <= i < n && items[..n][i].0 == key;
            assert items[i].0 == key;
          }
          if HasKey(items, key) && items[n].0 != key {
            var i :| 0 <= i < |items| && items[i].0 == key;
            assert items[..n][i].0 == key;
          }
        }
      }
    }
  }

  /** Clipping an order raises for want of a limit exactly when a threshold is given whose keys cover
      neither both directions nor the order's own, whatever the order and the quotes. */
  lemma {:induction false} UncoveredDirectionRaises(
    t: Threshold, dir: Direction, sums: string -> real, lasts: string -> real, amount: real, dealt: real)
    ensures ClipByVolume(amount, QuotedLimits(t, dir, sums, lasts), dealt).error == Some(EmptyLimits)
            <==> t.Keyed? && !HasKey(t.items, "all") && !HasKey(t.items, KeyOf(dir))
  {
    if t != NoThreshold {
      NoRulesExactly(ItemsOf(t), dir);
      if t.Single? {
        assert ItemsOf(t)[0].0 == "all";
      }
    }
  }

  // ----- cash -----

  /** The fee on a value is the rate on it, but no less than the least fee. */
  function FeeOn(val: real, ratio: real, minCost: real): real {
    MaxReal(val * ratio, minCost)
  }

  /** What buying an amount takes from the cash: its value and the fee. */
  function Spend(a: real, price: real, ratio: real, minCost: real): real {
    Val(a, price) + FeeOn(Val(a, price), ratio, minCost)
  }

  function BuyLimit(price: real, cash: real, ratio: real, minCost: real): real
    requires price > 0.0 && ratio > 0.0
  {
    if cash >= minCost then
      if cash >= minCost / ratio + minCost then cash / (1.0 + ratio) / price else (cash - minCost) / price
    else 0.0
  }

  /** The value that can be paid for with its fee. */
  lemma {:induction false} PayableExactly(val: real, cash: real, ratio: real, minCost: real)
    requires ratio > 0.0 && 0.0 <= minCost <= cash
    ensures val + FeeOn(val, ratio, minCost) <= cash <==>
            val <= if cash >= minCost / ratio + minCost then cash / (1.0 + ratio) else cash - minCost
  {
    BelowQuotient(val, ratio, minCost);
    BelowQuotient(val, 1.0 + ratio, cash);
    SumTimes(1.0, ratio, val);
    assert minCost / ratio < val <==> minCost < val * ratio;
  }

  /** The limit is exact: an amount can be paid for if and only if it does not exceed it. */
  lemma {:induction false} AffordableExactly(a: real, price: real, cash: real, ratio: real, minCost: real)
    requires price > 0.0 && ratio > 0.0 && 0.0 <= minCost <= cash
    ensures Spend(a, price, ratio, minCost) <= cash <==> a <= BuyLimit(price, cash, ratio, minCost)
  {
    hide FeeOn;
    PayableExactly(Val(a, price), cash, ratio, minCost);
    BelowQuotient(a, price, cash / (1.0 + ratio));
    BelowQuotient(a, price, cash - minCost);
  }

  /** Below the least fee nothing can be paid for, not even an empty order. */
  lemma {:induction false} NothingAffordable(a: real, price: real, cash: real, ratio: real, minCost: real)
    requires price > 0.0 && ratio > 0.0 && a >= 0.0 && cash < minCost
    ensures Spend(a, price, ratio, minCost) > cash && BuyLimit(price, cash, ratio, minCost) == 0.0
  {
    ProductSign(a, price);
  }

  lemma {:induction false} BuyLimitNonNegative(price: real, cash: real, ratio: real, minCost: real)
    requires price > 0.0 && ratio > 0.0 && minCost >= 0.0
    ensures BuyLimit(price, cash, ratio, minCost) >= 0.0
  {
    if cash >= minCost {
      QuotientSign(cash, 1.0 + ratio);
      QuotientSign(cash / (1.0 + ratio), price);
      QuotientSign(cash - minCost, price);
    }
  }

  /** What some more of an amount may add to the spending: its value and the rate on it. */
  function Overshoot(more: real, price: real, ratio: real): real {
    more * price * (1.0 + ratio)
  }

  lemma {:induction false} FeeSlope(u: real, v: real, ratio: real, minCost: real)
    requires ratio >= 0.0 && u <= v
    ensures FeeOn(u, ratio, minCost) <= FeeOn(v, ratio, minCost) <= FeeOn(u, ratio, minCost) + (v - u) * ratio
  {
    SumTimes(v, u, ratio);
    ProductSign(v - u, ratio);
  }

  lemma {:induction false} SpendUpTo(a: real, d: real, more: real, price: real, ratio: real, minCost: real)
    requires price > 0.0 && ratio >= 0.0 && d <= a + more && more >= 0.0
    ensures Spend(d, price, ratio, minCost) <= Spend(a, price, ratio, minCost) + Overshoot(more, price, ratio)
  {
    var u, v, w := Val(a, price), Val(a + more, price), Val(d, price);
    var step := more * price;
    ScaleLe(d, a + more, price);
    SumTimes(a, more, price);
    ProductSign(more, price);
    assert v - u == step;
    FeeSlope(u, v, ratio, minCost);
    FeeSlope(w, v, ratio, minCost);
    SumTimes(1.0, ratio, step);
    hide FeeOn, Val;
  }

  // ----- one order -----

  function Square(x: real): real { x * x }

  /** The traded value as a part of the quoted one. */
  function TradedPart(a: Ask, clipped: real): real
    requires ValidAsk(a) && a.quote.volume.Some?
  {
    assert a.quote.volume.value * a.quote.price > 0.0;
    (clipped * a.quote.price) / (a.quote.volume.value * a.quote.price)
  }

  /** The cost rate, with the impact of the volume-clipped order on the market. */
  function CostRatio(r: Rules, a: Ask, clipped: real): (ratio: real)
    requires ValidRules(r) && ValidAsk(a)
    ensures ratio >= 0.0
  {
    var base := if a.dir == SELL then r.closeCost else r.openCost;
    if a.quote.volume == None then base + r.impactCost
    else
      assert Square(TradedPart(a, clipped)) >= 0.0;
      base + r.impactCost * Square(TradedPart(a, clipped))
  }

  function SellDeal(r: Rules, a: Ask, clipped: real, ratio: real, holder: Option<Holder>): Clipped
    requires ValidRules(r) && ValidAsk(a)
  {
    if holder == None then Clipped(clipped, None)
    else
      var h := holder.value;
      match if IsClose(clipped, h.amount) then Ok(clipped)
            else RoundAmount(r, MinReal(h.amount, clipped), a.quote.factor)
      case Err(e) => Clipped(clipped, Some(e))
      case Ok(d) =>
        if h.cash + Val(d, a.quote.price) < FeeOn(Val(d, a.quote.price), ratio, r.minCost) then Clipped(0.0, None)
        else Clipped(d, None)
  }

  function BuyDeal(r: Rules, a: Ask, clipped: real, ratio: real, holder: Option<Holder>): Clipped
    requires ValidRules(r) && ValidAsk(a) && ratio >= 0.0
  {
    var price := a.quote.price;
    if holder.Some? && holder.value.cash < FeeOn(Val(clipped, price), ratio, r.minCost) then Clipped(0.0, None)
    else if holder.Some? && holder.value.cash < Spend(clipped, price, ratio, r.minCost) then
      if ratio == 0.0 then Clipped(clipped, Some(DivisionByZero))
      else
        var most := MinReal(BuyLimit(price, holder.value.cash, ratio, r.minCost), clipped);
        Finish(clipped, RoundAmount(r, most, a.quote.factor))
    else Finish(clipped, RoundAmount(r, clipped, a.quote.factor))
  }

  function Finish(clipped: real, rounded: Result<real, DealError>): Clipped {
    match rounded
    case Ok(d) => Clipped(d, None)
    case Err(e) => Clipped(clipped, Some(e))
  }

  /** The deal amount left on an order after all clipping. */
  function DealAmount(r: Rules, a: Ask, holder: Option<Holder>, dealt: real): Clipped
    requires ValidRules(r) && ValidAsk(a)
  {
    var c := ClipByVolume(a.amount, Limits(a), dealt);
    if c.error.Some? then c
    else
      var ratio := CostRatio(r, a, c.amount);
      if a.dir == SELL then SellDeal(r, a, c.amount, ratio, holder) else BuyDeal(r, a, c.amount, ratio, holder)
  }

  /** The rate an order is charged at. */
  function Rate(r: Rules, a: Ask, dealt: real): (ratio: real)
    requires ValidRules(r) && ValidAsk(a)
    ensures ratio >= 0.0
  {
    CostRatio(r, a, ClipByVolume(a.amount, Limits(a), dealt).amount)
  }

  /** The fee on a value; nothing is charged when nothing is dealt. */
  function Fee(r: Rules, ratio: real, val: real): real {
    if val <= 0.00001 then 0.0 else FeeOn(val, ratio, r.minCost)
  }

  // ----- what clipping guarantees -----

  /** How far rounding may go up on an order. */
  function Slack(r: Rules, a: Ask): (s: real)
    requires ValidAsk(a)
    ensures s >= 0.0
  {
    if Rounds(r) && a.quote.factor.Some? then 0.1 / a.quote.factor.value else 0.0
  }

  lemma {:induction false} RoundedWithin(r: Rules, a: Ask, x: real)
    requires ValidRules(r) && ValidAsk(a) && RoundAmount(r, x, a.quote.factor).Ok?
    ensures RoundAmount(r, x, a.quote.factor).value <= x + Slack(r, a)
    ensures x >= 0.0 ==> RoundAmount(r, x, a.quote.factor).value >= 0.0
  {
    if Rounds(r) {
      RoundUp(x, a.quote.factor.value, r.unit.value);
    }
  }

  /** The amount a buy rounds: what the cash can pay for, if that is less than the order. */
  function BuyTarget(r: Rules, price: real, cash: real, clipped: real, ratio: real): real
    requires price > 0.0 && ratio >= 0.0
  {
    if cash < Spend(clipped, price, ratio, r.minCost) && ratio > 0.0 then
      MinReal(BuyLimit(price, cash, ratio, r.minCost), clipped)
    else clipped
  }

  lemma {:induction false} BuyTargetAffordable(r: Rules, price: real, cash: real, clipped: real, ratio: real)
    requires ValidRules(r) && price > 0.0 && ratio >= 0.0 && clipped >= 0.0
    requires cash >= FeeOn(Val(clipped, price), ratio, r.minCost)
    requires ratio == 0.0 ==> Spend(clipped, price, ratio, r.minCost) <= cash
    ensures var most := BuyTarget(r, price, cash, clipped, ratio);
            0.0 <= most <= clipped && Spend(most, price, ratio, r.minCost) <= cash
  {
    var most := BuyTarget(r, price, cash, clipped, ratio);
    if cash < Spend(clipped, price, ratio, r.minCost) {
      assert cash >= r.minCost;
      hide Spend, FeeOn, BuyLimit, Val;
      AffordableExactly(most, price, cash, ratio, r.minCost);
      BuyLimitNonNegative(price, cash, ratio, r.minCost);
    }
  }

  /** A buy never spends more than the cash but for the rounding slack and the fee on it, and a cash
      balance that cannot pay the fee of the order, such as a negative one, buys nothing. */
  lemma {:induction false} BuyWithinCash(r: Rules, a: Ask, clipped: real, ratio: real, h: Holder)
    requires ValidRules(r) && ValidAsk(a) && clipped >= 0.0 && ratio >= 0.0
    requires BuyDeal(r, a, clipped, ratio, Some(h)).error == None
    ensures var d := BuyDeal(r, a, clipped, ratio, Some(h)).amount;
            var fee := FeeOn(Val(clipped, a.quote.price), ratio, r.minCost);
            && d >= 0.0
            && (h.cash < fee ==> d == 0.0)
            && (h.cash >= fee ==>
                  Spend(d, a.quote.price, ratio, r.minCost) <= h.cash + Overshoot(Slack(r, a), a.quote.price, ratio))
            && d <= clipped + Slack(r, a)
  {
    hide Spend, FeeOn, BuyLimit, RoundAmount, Val, Overshoot;
    var price, cash := a.quote.price, h.cash;
    if cash >= FeeOn(Val(clipped, price), ratio, r.minCost) {
      var most := BuyTarget(r, price, cash, clipped, ratio);
      var rounded := RoundAmount(r, most, a.quote.factor);
      assert BuyDeal(r, a, clipped, ratio, Some(h)) == Finish(clipped, rounded);
      BuyTargetAffordable(r, price, cash, clipped, ratio);
      RoundedWithin(r, a, most);
      hide BuyDeal, BuyTarget;
      hide Slack;
      SpendUpTo(most, rounded.value, Slack(r, a), price, ratio, r.minCost);
    }
  }

  /** A sell that deals anything leaves the cash non-negative at its own value; and it exceeds an order
      within the holding by no more than the rounding slack. */
  lemma {:induction false} SellWithinCash(r: Rules, a: Ask, clipped: real, ratio: real, h: Holder)
    requires ValidRules(r) && ValidAsk(a) && clipped >= 0.0 && ratio >= 0.0 && h.amount >= 0.0
    requires SellDeal(r, a, clipped, ratio, Some(h)).error == None
    ensures var d, price := SellDeal(r, a, clipped, ratio, Some(h)).amount, a.quote.price;
            && d >= 0.0
            && (d == 0.0 || h.cash + Val(d, price) - FeeOn(Val(d, price), ratio, r.minCost) >= 0.0)
            && (clipped <= h.amount ==> d <= h.amount + Slack(r, a))
            && d <= clipped + Slack(r, a)
  {
    RoundedSell(r, a, clipped, h);
  }

  lemma {:induction false} RoundedSell(r: Rules, a: Ask, clipped: real, h: Holder)
    requires ValidRules(r) && ValidAsk(a) && clipped >= 0.0 && h.amount >= 0.0
    ensures var rounded := RoundAmount(r, MinReal(h.amount, clipped), a.quote.factor);
            rounded.Ok? ==> 0.0 <= rounded.value <= MinReal(h.amount, clipped) + Slack(r, a)
  {
    if RoundAmount(r, MinReal(h.amount, clipped), a.quote.factor).Ok? {
      RoundedWithin(r, a, MinReal(h.amount, clipped));
    }
  }

  /** Rounding up can take a sell beyond what the position tolerates: of 99.95 shares, selling 99.93
      rounds to a lot of 100 and is rejected. */
  lemma {:induction false} RoundedSellRejected()
    ensures var r := Rules(Some(100.0), false, 0.0, 0.0, 0.0, 0.0);
            var a := Ask("S", SELL, 99.93, Quote(true, 1.0, None, Some(1.0), None, None));
            && DealAmount(r, a, Some(Holder(99.95, 0.0)), 0.0) == Clipped(100.0, None)
            && SellAmount(99.95, 100.0) == None
  {
    assert ((99.93 * 1.0 + 0.1) / 100.0).Floor == 1;
    assert RoundUnit(99.93, 1.0, 100.0) == 100.0;
    assert !IsClose(99.93, 99.95);
  }

  function LotShares(k: int, unit: real): real {
    k as real * unit
  }

  /** The greatest whole number of units in some unadjusted shares. */
  predicate GreatestLot(k: int, shares: real, unit: real) {
    LotShares(k, unit) <= shares < LotShares(k, unit) + unit
  }

  lemma {:induction false} UnitsAreGreatest(shares: real, unit: real, k: int)
    requires unit > 0.0
    ensures GreatestLot(k, shares, unit) <==> k == Units(shares, unit)
  {
    UnitsExactly(shares, unit, k);
    UnitsExactly(shares, unit, k + 1);
    SumTimes(k as real, 1.0, unit);
  }

  /** The most unadjusted shares the position accepts in a sell. */
  function Tolerated(amount: real, factor: real): real {
    (amount + OversellTolerance(amount)) * factor
  }

  /** The cash and the value of the sold lots cover the fee. */
  predicate FeeCovered(r: Rules, cash: real, val: real, ratio: real) {
    cash + val >= FeeOn(val, ratio, r.minCost)
  }

  /** When the position rejects a rounded sell: the greatest lot in the order, or in the holding if that
      is less, with the 0.1 added, lies beyond the holding and its tolerance and pays its own fee. */
  ghost predicate LotOversells(r: Rules, a: Ask, offered: real, ratio: real, h: Holder)
    requires ValidAsk(a) && Rounds(r) && a.quote.factor.Some?
  {
    var f, unit := a.quote.factor.value, r.unit.value;
    exists k: int ::
      && GreatestLot(k, Unadjusted(offered, f), unit)
      && Tolerated(h.amount, f) < LotShares(k, unit)
      && FeeCovered(r, h.cash, Val(Adjusted(k, unit, f), a.quote.price), ratio)
  }

  /** An order close to the holding is beyond the tolerance and pays its fee; or it is not close, and its
      greatest lot oversells. */
  ghost predicate ClippedOversells(r: Rules, a: Ask, clipped: real, ratio: real, h: Holder)
    requires ValidAsk(a) && (!IsClose(clipped, h.amount) && Rounds(r) ==> a.quote.factor.Some?)
  {
    if IsClose(clipped, h.amount) then
      && h.amount + OversellTolerance(h.amount) < clipped
      && FeeCovered(r, h.cash, Val(clipped, a.quote.price), ratio)
    else Rounds(r) && LotOversells(r, a, MinReal(h.amount, clipped), ratio, h)
  }

  /** The position rejects a sell clipped for it in two cases only: an order close to the holding that is
      beyond the tolerance and pays its fee, and any other whose greatest lot oversells. */
  lemma {:induction false} RoundedSellRejectedExactly(r: Rules, a: Ask, clipped: real, ratio: real, h: Holder)
    requires ValidRules(r) && ValidAsk(a) && clipped >= 0.0 && h.amount >= 0.0 && ratio >= 0.0
    requires SellDeal(r, a, clipped, ratio, Some(h)).error == None
    ensures !IsClose(clipped, h.amount) && Rounds(r) ==> a.quote.factor.Some?
    ensures SellAmount(h.amount, SellDeal(r, a, clipped, ratio, Some(h)).amount) == None
            <==> ClippedOversells(r, a, clipped, ratio, h)
  {
    if IsClose(clipped, h.amount) || !Rounds(r) {
      assert OversellTolerance(h.amount) > 0.0;
      hide IsClose, OversellTolerance, Val, FeeOn, LotOversells;
    } else {
      hide *;
      LotDecides(r, a, clipped, ratio, h);
    }
  }

  lemma {:induction false} LotOversellsAt(r: Rules, a: Ask, offered: real, ratio: real, h: Holder, k: int)
    requires ValidRules(r) && ValidAsk(a) && Rounds(r) && a.quote.factor.Some?
    requires GreatestLot(k, Unadjusted(offered, a.quote.factor.value), r.unit.value)
    ensures LotOversells(r, a, offered, ratio, h) <==>
            && Tolerated(h.amount, a.quote.factor.value) < LotShares(k, r.unit.value)
            && FeeCovered(r, h.cash, Val(Adjusted(k, r.unit.value, a.quote.factor.value), a.quote.price), ratio)
  {
    var shares, unit := Unadjusted(offered, a.quote.factor.value), r.unit.value;
    hide OversellTolerance, Val, FeeCovered, Adjusted, Unadjusted, GreatestLot, Units;
    forall j: int | GreatestLot(j, shares, unit)
      ensures j == k
    {
      UnitsAreGreatest(shares, unit, j);
      UnitsAreGreatest(shares, unit, k);
    }
  }

  lemma {:induction false} LotDecides(r: Rules, a: Ask, clipped: real, ratio: real, h: Holder)
    requires ValidRules(r) && ValidAsk(a) && h.amount >= 0.0 && Rounds(r)
    requires !IsClose(clipped, h.amount) && SellDeal(r, a, clipped, ratio, Some(h)).error == None
    ensures a.quote.factor.Some?
    ensures SellAmount(h.amount, SellDeal(r, a, clipped, ratio, Some(h)).amount) == None
            <==> LotOversells(r, a, MinReal(h.amount, clipped), ratio, h)
  {
    var offered, d := MinReal(h.amount, clipped), SellDeal(r, a, clipped, ratio, Some(h)).amount;
    var tolerated := h.amount + OversellTolerance(h.amount);
    var f, unit := a.quote.factor.value, r.unit.value;
    var k := Units(Unadjusted(offered, f), unit);
    var lot := Adjusted(k, unit, f);
    assert tolerated > h.amount;
    assert d == if FeeCovered(r, h.cash, Val(lot, a.quote.price), ratio) then lot else 0.0;
    assert SellAmount(h.amount, d) == None <==> tolerated < d;
    LotBeyond(h.amount, f, unit, k);
    assert f > 0.0 && unit > 0.0;
    hide *;
    UnitsAreGreatest(Unadjusted(offered, f), unit, k);
    LotOversellsAt(r, a, offered, ratio, h, k);
  }

  lemma {:induction false} LotBeyond(amount: real, f: real, unit: real, k: int)
    requires f > 0.0 && unit > 0.0
    ensures amount + OversellTolerance(amount) < Adjusted(k, unit, f) <==> Tolerated(amount, f) < LotShares(k, unit)
  {
    CompareRounded(k, unit, f, amount + OversellTolerance(amount));
  }

  /** With rates of at most one and cash for the least fee the fee is always covered, and the order alone
      decides: some whole number of units lies above the holding and its tolerance, but not above the order
      and the 0.1. */
  lemma {:induction false} RoundedSellRejectedByOrder(r: Rules, a: Ask, clipped: real, ratio: real, h: Holder)
    requires ValidRules(r) && ValidAsk(a) && clipped >= 0.0 && h.amount >= 0.0 && Rounds(r)
    requires a.quote.factor.Some? && 0.0 <= ratio <= 1.0 && h.cash >= r.minCost
    ensures SellAmount(h.amount, SellDeal(r, a, clipped, ratio, Some(h)).amount) == None
            <==> if IsClose(clipped, h.amount) then h.amount + OversellTolerance(h.amount) < clipped
                 else LotBetween(Tolerated(h.amount, a.quote.factor.value),
                                 Unadjusted(MinReal(h.amount, clipped), a.quote.factor.value), r.unit.value)
  {
    var price := a.quote.price;
    assert price > 0.0 && MinReal(h.amount, clipped) >= 0.0;
    assert SellDeal(r, a, clipped, ratio, Some(h)).error == None;
    assert r.minCost >= 0.0;
    hide *;
    ValuePaysFee(r, h.cash, clipped, price, ratio);
    RoundedSellRejectedExactly(r, a, clipped, ratio, h);
    LotOversellsByOrder(r, a, MinReal(h.amount, clipped), ratio, h);
  }

  lemma {:induction false} LotOversellsByOrder(r: Rules, a: Ask, offered: real, ratio: real, h: Holder)
    requires ValidRules(r) && ValidAsk(a) && 0.0 <= offered && Rounds(r) && a.quote.factor.Some?
    requires 0.0 <= ratio <= 1.0 && h.cash >= r.minCost
    ensures LotOversells(r, a, offered, ratio, h)
            <==> LotBetween(Tolerated(h.amount, a.quote.factor.value),
                            Unadjusted(offered, a.quote.factor.value), r.unit.value)
  {
    var f, unit := a.quote.factor.value, r.unit.value;
    var shares := Unadjusted(offered, f);
    assert f > 0.0 && unit > 0.0 && a.quote.price > 0.0;
    var above := Tolerated(h.amount, f);
    var k := Units(shares, unit);
    hide *;
    UnitsAreGreatest(shares, unit, k);
    LotBetweenExactly(above, shares, unit);
    LotPaysFee(r, h.cash, k, unit, f, a.quote.price, ratio, offered);
    LotOversellsAt(r, a, offered, ratio, h, k);
  }

  /** Some whole number of units lies above the one amount of shares and not above the other. */
  ghost predicate LotBetween(above: real, upTo: real, unit: real) {
    exists k: int :: LotWithin(k, above, upTo, unit)
  }

  predicate LotWithin(k: int, above: real, upTo: real, unit: real) {
    above < LotShares(k, unit) <= upTo
  }

  lemma {:induction false} LotBetweenExactly(above: real, upTo: real, unit: real)
    requires unit > 0.0
    ensures LotBetween(above, upTo, unit) <==> above < LotShares(Units(upTo, unit), unit)
  {
    var k := Units(upTo, unit);
    UnitsExactly(upTo, unit, k);
    assert LotWithin(k, above, upTo, unit) <==> above < LotShares(k, unit);
    if LotBetween(above, upTo, unit) {
      var j: int :| LotWithin(j, above, upTo, unit);
      UnitsExactly(upTo, unit, j);
      ScaleLe(j as real, k as real, unit);
    }
  }

  lemma {:induction false} PartOf(val: real, ratio: real)
    requires val >= 0.0 && 0.0 <= ratio <= 1.0
    ensures val * ratio <= val
  {
    ScaleLe(ratio, 1.0, val);
  }

  lemma {:induction false} LotPaysFee(
    r: Rules, cash: real, k: int, unit: real, f: real, price: real, ratio: real, clipped: real)
    requires ValidRules(r) && cash >= r.minCost && unit > 0.0 && f > 0.0 && price > 0.0 && 0.0 <= ratio <= 1.0
    requires clipped >= 0.0 && k == Units(Unadjusted(clipped, f), unit)
    ensures FeeCovered(r, cash, Val(Adjusted(k, unit, f), price), ratio)
  {
    ProductSign(clipped, f);
    UnitsExactly(Unadjusted(clipped, f), unit, 0);
    ProductSign(k as real, unit);
    QuotientSign(k as real * unit, f);
    var lot := Adjusted(k, unit, f);
    ValuePaysFee(r, cash, lot, price, ratio);
  }

  lemma {:induction false} ValuePaysFee(r: Rules, cash: real, amount: real, price: real, ratio: real)
    requires ValidRules(r) && cash >= r.minCost && amount >= 0.0 && price > 0.0 && 0.0 <= ratio <= 1.0
    ensures FeeCovered(r, cash, Val(amount, price), ratio)
  {
    var val := Val(amount, price);
    ProductSign(amount, price);
    hide Val;
    PartOf(val, ratio);
  }

  /** A rounding slack within the tolerance rules a rejection out. */
  lemma {:induction false} SmallSlackNeverRejected(r: Rules, a: Ask, clipped: real, ratio: real, h: Holder)
    requires ValidRules(r) && ValidAsk(a) && 0.0 <= clipped <= h.amount && ratio >= 0.0
    requires SellDeal(r, a, clipped, ratio, Some(h)).error == None && Slack(r, a) <= OversellTolerance(h.amount)
    ensures SellAmount(h.amount, SellDeal(r, a, clipped, ratio, Some(h)).amount).Some?
  {
    SellWithinCash(r, a, clipped, ratio, h);
    assert OversellTolerance(h.amount) > 0.0;
  }

  // ----- booking -----

  function HolderOf(s: State, stock: string): Holder {
    Holder(if stock in s.book then s.book[stock].amount else 0.0, s.cash)
  }

  /** What an order did: the ledger after it, the amount and value dealt, and what was raised. */
  datatype Dealt = Dealt(ledger: Ledger, amount: real, val: real, fee: real, error: Option<DealError>)

  /** An order that may be traded is clipped and, unless its value is negligible, booked. */
  function DealOrder(r: Rules, enabled: bool, l: Ledger, a: Ask, dealt: real): (d: Dealt)
    requires ValidRules(r) && ValidAsk(a) && ValidState(l.pos)
    ensures ValidState(d.ledger.pos)
  {
    if !a.quote.tradable then Dealt(l, 0.0, 0.0, 0.0, None)
    else
      var c := DealAmount(r, a, Some(HolderOf(l.pos, a.stock)), dealt);
      if c.error.Some? then Dealt(l, c.amount, 0.0, 0.0, c.error)
      else
        var val := Val(c.amount, a.quote.price);
        var fee := Fee(r, Rate(r, a, dealt), val);
        if val <= 0.00001 then Dealt(l, c.amount, val, fee, None)
        else
          var booked := BookTrade(l, enabled, Trade(a.dir, a.stock, val, fee, a.quote.price));
          Dealt(booked.ledger, c.amount, val, fee,
                if booked.error.Some? then Some(Rejected(booked.error.value)) else None)
  }

  /** Dealing a sell raises for an oversell exactly when the order may be traded, the stock is held, what is
      left of the order is worth more than a negligible value, and the position rejects it. */
  lemma {:induction false} SellRejectedExactly(r: Rules, enabled: bool, l: Ledger, a: Ask, dealt: real)
    requires ValidRules(r) && ValidAsk(a) && ValidState(l.pos) && a.dir == SELL
    requires DealAmount(r, a, Some(HolderOf(l.pos, a.stock)), dealt).error == None
    requires HolderOf(l.pos, a.stock).amount >= 0.0
    ensures var h, clipped := HolderOf(l.pos, a.stock), ClipByVolume(a.amount, Limits(a), dealt).amount;
            && (!IsClose(clipped, h.amount) && Rounds(r) ==> a.quote.factor.Some?)
            && (DealOrder(r, enabled, l, a, dealt).error == Some(Rejected(Oversold)) <==>
                  && a.quote.tradable && a.stock in l.pos.book
                  && Val(DealAmount(r, a, Some(h), dealt).amount, a.quote.price) > 0.00001
                  && ClippedOversells(r, a, clipped, Rate(r, a, dealt), h))
  {
    var h, clipped := HolderOf(l.pos, a.stock), ClipByVolume(a.amount, Limits(a), dealt).amount;
    var ratio, d := Rate(r, a, dealt), DealAmount(r, a, Some(h), dealt).amount;
    assert clipped >= 0.0;
    assert SellDeal(r, a, clipped, ratio, Some(h)) == Clipped(d, None);
    hide ClipByVolume, Limits, IsClose, Rate, CostRatio, Val, FeeOn, LotOversells, OversellTolerance, RoundUnit;
    RoundedSellRejectedExactly(r, a, clipped, ratio, h);
    assert SellAmount(h.amount, d) == None <==> ClippedOversells(r, a, clipped, ratio, h);
    hide ClippedOversells, SellDeal;
    OversoldExactly(r, enabled, l, a, dealt);
  }

  lemma {:induction false} OversoldExactly(r: Rules, enabled: bool, l: Ledger, a: Ask, dealt: real)
    requires ValidRules(r) && ValidAsk(a) && ValidState(l.pos) && a.dir == SELL
    requires DealAmount(r, a, Some(HolderOf(l.pos, a.stock)), dealt).error == None
    ensures var h := HolderOf(l.pos, a.stock);
            var d := DealAmount(r, a, Some(h), dealt).amount;
            DealOrder(r, enabled, l, a, dealt).error == Some(Rejected(Oversold)) <==>
              && a.quote.tradable && a.stock in l.pos.book && Val(d, a.quote.price) > 0.00001
              && SellAmount(h.amount, d) == None
  {
    hide DealAmount, Rate, Fee, SellAmount;
    var d := DealAmount(r, a, Some(HolderOf(l.pos, a.stock)), dealt).amount;
    QuotientOfProduct(d, a.quote.price);
    assert Shares(Val(d, a.quote.price), a.quote.price) == d;
    hide Val, Shares, IsClose;
  }

  lemma {:induction false} QuotientOfProduct(a: real, b: real)
    requires b > 0.0
    ensures a * b / b == a
  {
  }

  // ----- what an order is charged -----

  /** The rate of the order's direction and the impact of the volume-clipped order, in square of its part of
      the quoted volume, or in full when none is quoted. */
  predicate ChargedRate(r: Rules, a: Ask, clipped: real, rate: real)
    requires ValidAsk(a)
  {
    var part := if a.quote.volume.Some? then clipped / a.quote.volume.value else 1.0;
    rate == (if a.dir == BUY then r.openCost else r.closeCost) + r.impactCost * (part * part)
  }

  /** The fee on a value is that rate on it, but no less than the least fee. */
  ghost predicate Charged(r: Rules, a: Ask, clipped: real, val: real, fee: real)
    requires ValidAsk(a)
  {
    exists rate: real :: ChargedRate(r, a, clipped, rate) && fee == MaxReal(val * rate, r.minCost)
  }

  lemma {:induction false} PartOfVolume(clipped: real, volume: real, price: real)
    requires volume > 0.0 && price > 0.0
    ensures volume * price > 0.0 && (clipped * price) / (volume * price) == clipped / volume
  {
    assert volume * price > 0.0;
    var part := clipped / volume;
    QuotientTimes(clipped, volume);
    assert part * (volume * price) == (part * volume) * price;
    QuotientOfProduct(part, volume * price);
  }

  lemma {:induction false} ChargedExactly(r: Rules, a: Ask, clipped: real, val: real)
    requires ValidRules(r) && ValidAsk(a)
    ensures Charged(r, a, clipped, val, FeeOn(val, CostRatio(r, a, clipped), r.minCost))
  {
    RateOf(r, a, clipped);
    hide CostRatio, ChargedRate;
  }

  lemma {:induction false} RateOf(r: Rules, a: Ask, clipped: real)
    requires ValidRules(r) && ValidAsk(a)
    ensures ChargedRate(r, a, clipped, CostRatio(r, a, clipped))
  {
    hide Square, TradedPart;
    if a.quote.volume.Some? {
      TradedIsPart(a, clipped);
      SquareTimes(r.impactCost, TradedPart(a, clipped), clipped / a.quote.volume.value);
    } else {
      assert r.impactCost * (1.0 * 1.0) == r.impactCost;
    }
  }

  lemma {:induction false} TradedIsPart(a: Ask, clipped: real)
    requires ValidAsk(a) && a.quote.volume.Some?
    ensures TradedPart(a, clipped) == clipped / a.quote.volume.value
  {
    PartOfVolume(clipped, a.quote.volume.value, a.quote.price);
  }

  lemma {:induction false} SquareTimes(a: real, b: real, c: real)
    requires b == c
    ensures a * Square(b) == a * (c * c)
  {
  }

  /** An order that may not be traded does nothing, nor does one of negligible value; any other is charged
      that fee. */
  lemma {:induction false} BookedFee(r: Rules, enabled: bool, l: Ledger, a: Ask, dealt: real)
    requires ValidRules(r) && ValidAsk(a) && ValidState(l.pos)
    requires a.quote.tradable ==> DealAmount(r, a, Some(HolderOf(l.pos, a.stock)), dealt).error == None
    ensures var d := DealOrder(r, enabled, l, a, dealt);
            && d.val == d.amount * a.quote.price
            && (!a.quote.tradable ==> d.val == 0.0)
            && (d.val > 0.00001 ==> Charged(r, a, ClipByVolume(a.amount, Limits(a), dealt).amount, d.val, d.fee))
            && (d.val <= 0.00001 ==> d.fee == 0.0 && d.ledger == l && d.error == None)
  {
    hide DealAmount, ClipByVolume, CostRatio, FeeOn, BookTrade, Charged;
    if a.quote.tradable {
      var d := DealOrder(r, enabled, l, a, dealt);
      ChargedExactly(r, a, ClipByVolume(a.amount, Limits(a), dealt).amount, d.val);
    }
  }

  /** Without impact cost a buy is charged the opening rate and a sell the closing one. */
  lemma {:induction false} PlainFee(r: Rules, enabled: bool, l: Ledger, a: Ask, dealt: real)
    requires ValidRules(r) && ValidAsk(a) && ValidState(l.pos) && a.quote.tradable && r.impactCost == 0.0
    requires DealAmount(r, a, Some(HolderOf(l.pos, a.stock)), dealt).error == None
    ensures var d := DealOrder(r, enabled, l, a, dealt);
            d.val > 0.00001 ==>
              d.fee == MaxReal(d.val * if a.dir == BUY then r.openCost else r.closeCost, r.minCost)
  {
    hide DealOrder, DealAmount, ClipByVolume, Charged;
    BookedFee(r, enabled, l, a, dealt);
    var d := DealOrder(r, enabled, l, a, dealt);
    if d.val > 0.00001 {
      ChargedPlain(r, a, ClipByVolume(a.amount, Limits(a), dealt).amount, d.val, d.fee);
    }
  }

  lemma {:induction false} ChargedPlain(r: Rules, a: Ask, clipped: real, val: real, fee: real)
    requires ValidAsk(a) && r.impactCost == 0.0 && Charged(r, a, clipped, val, fee)
    ensures fee == MaxReal(val * if a.dir == BUY then r.openCost else r.closeCost, r.minCost)
  {
    var rate: real :| ChargedRate(r, a, clipped, rate) && fee == MaxReal(val * rate, r.minCost);
    var part := if a.quote.volume.Some? then clipped / a.quote.volume.value else 1.0;
    NoTimes(r.impactCost, part * part);
  }

  lemma {:induction false} NoTimes(a: real, b: real)
    requires a == 0.0
    ensures a * b == 0.0
  {
  }

  /** The terms of the other direction, its rate and its volume limits, change nothing for an order. */
  lemma {:induction false} OtherSideIgnored(
    r: Rules, enabled: bool, l: Ledger, a: Ask, dealt: real, rate: real, limits: Option<seq<Limit>>)
    requires ValidRules(r) && ValidAsk(a) && ValidState(l.pos) && rate >= 0.0
    ensures a.dir == BUY ==>
              DealOrder(r.(closeCost := rate), enabled, l, a.(quote := a.quote.(sellLimits := limits)), dealt) ==
              DealOrder(r, enabled, l, a, dealt)
    ensures a.dir == SELL ==>
              DealOrder(r.(openCost := rate), enabled, l, a.(quote := a.quote.(buyLimits := limits)), dealt) ==
              DealOrder(r, enabled, l, a, dealt)
  {
    var holder := Some(HolderOf(l.pos, a.stock));
    var r', a' := if a.dir == BUY then r.(closeCost := rate) else r.(openCost := rate),
                  a.(quote := if a.dir == BUY then a.quote.(sellLimits := limits)
                              else a.quote.(buyLimits := limits));
    SameTermsSameDeal(r, r', a, a', holder, dealt);
    hide DealAmount, Rate, BookTrade;
  }

  lemma {:induction false} SameTermsSameDeal(
    r: Rules, r': Rules, a: Ask, a': Ask, holder: Option<Holder>, dealt: real)
    requires ValidRules(r) && ValidAsk(a) && ValidRules(r') && ValidAsk(a')
    requires r' == r.(openCost := r'.openCost, closeCost := r'.closeCost)
    requires a' == a.(quote := a.quote.(buyLimits := a'.quote.buyLimits, sellLimits := a'.quote.sellLimits))
    requires Limits(a') == Limits(a)
    requires if a.dir == SELL then r'.closeCost == r.closeCost else r'.openCost == r.openCost
    ensures DealAmount(r', a', holder, dealt) == DealAmount(r, a, holder, dealt)
    ensures Rate(r', a', dealt) == Rate(r, a, dealt)
  {
    hide ClipByVolume, RoundUnit, BuyLimit, FeeOn, Val, IsClose, Spend;
    var c := ClipByVolume(a.amount, Limits(a), dealt).amount;
    assert CostRatio(r', a', c) == CostRatio(r, a, c) by {
      SameRate(r, r', a, a', c);
    }
    hide CostRatio;
    forall x
      ensures RoundAmount(r', x, a'.quote.factor) == RoundAmount(r, x, a.quote.factor)
    {
    }
    hide RoundAmount;
  }

  lemma {:induction false} SameRate(r: Rules, r': Rules, a: Ask, a': Ask, clipped: real)
    requires ValidRules(r) && ValidAsk(a) && ValidRules(r') && ValidAsk(a') && a'.dir == a.dir
    requires a'.quote.price == a.quote.price && a'.quote.volume == a.quote.volume
    requires r'.impactCost == r.impactCost
    requires if a.dir == SELL then r'.closeCost == r.closeCost else r'.openCost == r.openCost
    ensures CostRatio(r', a', clipped) == CostRatio(r, a, clipped)
  {
    assert a.quote.volume.Some? ==> TradedPart(a', clipped) == TradedPart(a, clipped);
    hide Square, TradedPart;
  }

  // ----- how much of an order is dealt -----

  /** An amount of a buy can be paid for with its fee at the order's rate. */
  predicate Payable(r: Rules, a: Ask, ratio: real, cash: real, x: real) {
    x * a.quote.price + MaxReal(x * a.quote.price * ratio, r.minCost) <= cash
  }

  /** Without rounding a buy deals the most of the volume-clipped order that the cash can pay for with its
      fee, or nothing when the cash cannot pay the fee of the order. */
  lemma {:induction false} BuyIsMost(r: Rules, a: Ask, clipped: real, ratio: real, h: Holder, x: real)
    requires ValidRules(r) && ValidAsk(a) && clipped >= 0.0 && ratio >= 0.0 && !Rounds(r)
    requires BuyDeal(r, a, clipped, ratio, Some(h)).error == None
    ensures var d := BuyDeal(r, a, clipped, ratio, Some(h)).amount;
            if h.cash < MaxReal(clipped * a.quote.price * ratio, r.minCost) then d == 0.0
            else x <= d <==> x <= clipped && Payable(r, a, ratio, h.cash, x)
  {
    var price, cash := a.quote.price, h.cash;
    hide Spend, FeeOn, BuyLimit, Val, Payable;
    OrderFee(x, price, ratio, r.minCost);
    OrderFee(clipped, price, ratio, r.minCost);
    PayableIsSpend(r, a, ratio, cash, x);
    if cash >= FeeOn(Val(clipped, price), ratio, r.minCost) {
      TargetIsMost(r, price, cash, clipped, ratio, x);
    }
  }

  lemma {:induction false} TargetIsMost(
    r: Rules, price: real, cash: real, clipped: real, ratio: real, x: real)
    requires ValidRules(r) && price > 0.0 && clipped >= 0.0 && ratio >= 0.0
    requires cash >= FeeOn(Val(clipped, price), ratio, r.minCost)
    requires ratio == 0.0 ==> Spend(clipped, price, ratio, r.minCost) <= cash
    ensures x <= BuyTarget(r, price, cash, clipped, ratio) <==>
            x <= clipped && Spend(x, price, ratio, r.minCost) <= cash
  {
    FeeIsLeast(Val(clipped, price), ratio, r.minCost);
    hide Spend, FeeOn, BuyLimit, Val;
    if cash < Spend(clipped, price, ratio, r.minCost) {
      AffordableExactly(x, price, cash, ratio, r.minCost);
      AffordableExactly(clipped, price, cash, ratio, r.minCost);
    } else if x <= clipped {
      SpendGrows(x, clipped, price, ratio, r.minCost);
    }
  }

  lemma {:induction false} OrderFee(x: real, price: real, ratio: real, minCost: real)
    ensures FeeOn(Val(x, price), ratio, minCost) == MaxReal(x * price * ratio, minCost)
  {
  }

  lemma {:induction false} PayableIsSpend(r: Rules, a: Ask, ratio: real, cash: real, x: real)
    ensures Payable(r, a, ratio, cash, x) <==> Spend(x, a.quote.price, ratio, r.minCost) <= cash
  {
  }

  lemma {:induction false} FeeIsLeast(val: real, ratio: real, minCost: real)
    ensures FeeOn(val, ratio, minCost) >= minCost
  {
  }

  lemma {:induction false} SpendGrows(x: real, y: real, price: real, ratio: real, minCost: real)
    requires price > 0.0 && ratio >= 0.0 && x <= y
    ensures Spend(x, price, ratio, minCost) <= Spend(y, price, ratio, minCost)
  {
    ScaleLe(x, y, price);
    hide Val, FeeOn;
    FeeSlope(Val(x, price), Val(y, price), ratio, minCost);
  }

  /** Without rounding a sell deals the order, or all that is held if that is less and not close to it; but
      nothing when cash and value cannot pay its fee. */
  lemma {:induction false} SellIsMost(r: Rules, a: Ask, clipped: real, ratio: real, h: Holder)
    requires ValidRules(r) && ValidAsk(a) && !Rounds(r)
    ensures var offered := if IsClose(clipped, h.amount) || clipped <= h.amount then clipped else h.amount;
            var val := offered * a.quote.price;
            SellDeal(r, a, clipped, ratio, Some(h)) ==
            Clipped(if h.cash + val < MaxReal(val * ratio, r.minCost) then 0.0 else offered, None)
  {
  }

  /** With rounding, a sell not close to the holding that pays its fee deals the greatest number of lots in the
      order, or in the holding if that is less, with the 0.1 added. */
  lemma {:induction false} SellIsGreatestLot(r: Rules, a: Ask, clipped: real, ratio: real, h: Holder, k: int)
    requires ValidRules(r) && ValidAsk(a) && Rounds(r) && a.quote.factor.Some? && !IsClose(clipped, h.amount)
    ensures var d, f, unit := SellDeal(r, a, clipped, ratio, Some(h)), a.quote.factor.value, r.unit.value;
            var lots := RoundUnit(MinReal(h.amount, clipped), f, unit);
            && d.error == None
            && (d.amount == if FeeCovered(r, h.cash, Val(lots, a.quote.price), ratio) then lots else 0.0)
            && (Adjusted(k, unit, f) <= lots <==> k as real * unit <= MinReal(h.amount, clipped) * f + 0.1)
  {
    var x, f, unit := MinReal(h.amount, clipped), a.quote.factor.value, r.unit.value;
    assert f > 0.0 && unit > 0.0;
    RoundIsGreatest(x, f, unit, k);
    hide IsClose, RoundUnit, Adjusted, Val, FeeOn;
  }

  /** Rounding takes the amount that would be dealt without it to its greatest lot, whatever clips it. */
  lemma {:induction false} BuyIsRounded(r: Rules, a: Ask, clipped: real, ratio: real, h: Holder)
    requires ValidRules(r) && ValidAsk(a) && ratio >= 0.0 && Rounds(r) && a.quote.factor.Some?
    requires h.cash >= FeeOn(Val(clipped, a.quote.price), ratio, r.minCost)
    requires BuyDeal(r, a, clipped, ratio, Some(h)).error == None
    ensures var plain := BuyDeal(r.(unit := None), a, clipped, ratio, Some(h));
            && plain.error == None
            && BuyDeal(r, a, clipped, ratio, Some(h)).amount ==
               RoundUnit(plain.amount, a.quote.factor.value, r.unit.value)
  {
    hide RoundUnit, BuyLimit, Val, FeeOn;
  }

  /** Without rounding and volume limits, and with cash for the least fee, a sell deals all of the order that
      the position holds. */
  lemma {:induction false} PlainSell(r: Rules, enabled: bool, l: Ledger, a: Ask, dealt: real)
    requires ValidRules(r) && ValidAsk(a) && ValidState(l.pos) && a.quote.tradable && a.dir == SELL
    requires !Rounds(r) && Limits(a) == None && AmountOf(l.pos, a.stock) >= 0.0
    requires l.pos.cash >= r.minCost && r.closeCost + r.impactCost <= 1.0
    requires a.quote.volume.Some? ==> a.amount <= a.quote.volume.value
    ensures var held := AmountOf(l.pos, a.stock);
            DealOrder(r, enabled, l, a, dealt).amount ==
            if IsClose(a.amount, held) || a.amount <= held then a.amount else held
  {
    var h, ratio := HolderOf(l.pos, a.stock), Rate(r, a, dealt);
    var offered := if IsClose(a.amount, h.amount) || a.amount <= h.amount then a.amount else h.amount;
    assert Val(offered, a.quote.price) == offered * a.quote.price;
    RateAtMost(r, a, a.amount);
    assert 0.0 <= ratio <= 1.0;
    ValuePaysFee(r, l.pos.cash, offered, a.quote.price, ratio);
    SellIsMost(r, a, a.amount, ratio, h);
    OrderFee(offered, a.quote.price, ratio, r.minCost);
    hide SellDeal, IsClose, Val, FeeOn, Rate, CostRatio, BookTrade;
  }

  lemma {:induction false} RateAtMost(r: Rules, a: Ask, clipped: real)
    requires ValidRules(r) && ValidAsk(a) && 0.0 <= clipped
    requires a.quote.volume.Some? ==> clipped <= a.quote.volume.value
    ensures CostRatio(r, a, clipped) <= (if a.dir == BUY then r.openCost else r.closeCost) + r.impactCost
  {
    RateOf(r, a, clipped);
    hide CostRatio;
    if a.quote.volume.Some? {
      var part := clipped / a.quote.volume.value;
      QuotientSign(clipped, a.quote.volume.value);
      QuotientTimes(clipped, a.quote.volume.value);
      Scale(part, 1.0, a.quote.volume.value);
      ScaleLe(part, 1.0, part);
      ScaleLe(part * part, 1.0, r.impactCost);
    }
  }

  // ----- what a dealt order does to the position -----

  /** A buy that is booked takes its value and fee from the cash and adds its amount to the holding, and
      nothing else changes. */
  lemma {:induction false} BookedBuy(r: Rules, enabled: bool, l: Ledger, a: Ask, dealt: real)
    requires ValidRules(r) && ValidAsk(a) && ValidState(l.pos) && a.quote.tradable && a.dir == BUY
    requires DealAmount(r, a, Some(HolderOf(l.pos, a.stock)), dealt).error == None
    ensures var d := DealOrder(r, enabled, l, a, dealt);
            d.val > 0.00001 ==>
              && d.error == None && d.ledger.pos.cash == l.pos.cash - d.val - d.fee
              && a.stock in d.ledger.pos.book
              && d.ledger.pos.book[a.stock].amount ==
                 (if a.stock in l.pos.book then l.pos.book[a.stock].amount else 0.0) + d.amount
              && (forall k :: k != a.stock ==> (k in d.ledger.pos.book <==> k in l.pos.book))
              && (forall k :: k != a.stock && k in l.pos.book ==> d.ledger.pos.book[k] == l.pos.book[k])
              && d.ledger.pos.cashDelay == l.pos.cashDelay
              && (enabled ==> d.ledger.cost == l.cost + d.fee && d.ledger.turnover == l.turnover + d.val)
              && (!enabled ==> d.ledger.(pos := l.pos) == l)
  {
    hide DealAmount, Rate, Fee;
    var d := DealAmount(r, a, Some(HolderOf(l.pos, a.stock)), dealt).amount;
    QuotientOfProduct(d, a.quote.price);
    assert Shares(Val(d, a.quote.price), a.quote.price) == d;
    hide Val, Shares, Profit;
  }

  /** A sell that is booked takes its amount off the holding, at most all of it, and pays its value less the
      fee; its totals are booked whether the position accepts it or not. */
  lemma {:induction false} BookedSell(r: Rules, enabled: bool, l: Ledger, a: Ask, dealt: real, other: string)
    requires ValidRules(r) && ValidAsk(a) && ValidState(l.pos) && a.quote.tradable && a.dir == SELL
    requires DealAmount(r, a, Some(HolderOf(l.pos, a.stock)), dealt).error == None && a.stock in l.pos.book
    ensures var d, h := DealOrder(r, enabled, l, a, dealt), l.pos.book[a.stock];
            d.val > 0.00001 ==>
              && (other != a.stock ==> SameHolding(l.pos, d.ledger.pos, other))
              && (d.error == None ==>
                    var sold := MinReal(h.amount, d.amount);
                    && (a.stock !in d.ledger.pos.book <==> IsClose(h.amount, sold))
                    && (a.stock in d.ledger.pos.book ==>
                          d.ledger.pos.book[a.stock] == Holding(h.amount - sold, h.price))
                    && d.ledger.pos ==
                       PaidTo(l.pos, Val(sold, a.quote.price) - d.fee).(book := d.ledger.pos.book))
              && (enabled ==> d.ledger.cost == l.cost + d.fee && d.ledger.turnover == l.turnover + d.val)
              && (!enabled ==> d.ledger.(pos := l.pos) == l)
  {
    hide DealAmount, Rate, Fee, Val, Shares, Profit, Sell, IsClose;
    var c := DealAmount(r, a, Some(HolderOf(l.pos, a.stock)), dealt).amount;
    var val := Val(c, a.quote.price);
    SharesOfValue(c, a.quote.price);
    SellRecords(l.pos, a.stock, val, Fee(r, Rate(r, a, dealt), val), a.quote.price, other);
    var shares := val / a.quote.price;
    assert shares == c;
  }

  lemma {:induction false} SharesOfValue(amount: real, price: real)
    requires price > 0.0
    ensures Val(amount, price) / price == amount
  {
    QuotientOfProduct(amount, price);
  }

  // ----- the objects -----

  class Order {
    const stock: string
    const amount: real
    const dir: Direction
    const quote: Quote    // what the exchange quotes for the order's interval
    var dealAmount: real
    var factor: Option<real>

    constructor (stock: string, amount: real, dir: Direction, quote: Quote)
      ensures this.stock == stock && this.amount == amount && this.dir == dir && this.quote == quote
      ensures dealAmount == 0.0 && factor == None
    {
      this.stock, this.amount, this.dir, this.quote := stock, amount, dir, quote;
      dealAmount, factor := 0.0, None;
    }

    function AsAsk(): Ask {
      Ask(stock, dir, amount, quote)
    }
  }

  class Exchange {
    const rules: Rules

    constructor (rules: Rules)
      ensures this.rules == rules
    {
      this.rules := rules;
    }

    method ClipAmountByVolume(order: Order, dealt: real) returns (error: Option<DealError>)
      modifies order`dealAmount
      ensures Clipped(order.dealAmount, error) ==
              ClipByVolume(old(order.dealAmount), Limits(order.AsAsk()), dealt)
    {
      hide LeastHeadroom;
      var limits := if order.dir == BUY then order.quote.buyLimits else order.quote.sellLimits;
      if limits == None {
        return None;
      }
      var room: seq<real> := [];
      for i := 0 to |limits.value|
        modifies {}
        invariant |room| == i && forall j :: 0 <= j < i ==> !limits.value[j].Unsupported?
        invariant forall j :: 0 <= j < i ==> room[j] == Headroom(limits.value[j], dealt)
      {
        match limits.value[i] {
          case Current(v) => room := room + [v];
          case Cum(v) => room := room + [v - dealt];
          case Unsupported => return Some(UnsupportedLimit);
        }
      }
      if room == [] {
        return Some(EmptyLimits);
      }
      var least := room[0];
      LeastStep(limits.value, 0, dealt);
      for i := 1 to |room|
        modifies {}
        invariant least == LeastHeadroom(limits.value[..i], dealt)
      {
        LeastStep(limits.value, i, dealt);
        least := MinReal(least, room[i]);
      }
      assert limits.value[..|room|] == limits.value;
      order.dealAmount := MaxReal(MinReal(least, order.dealAmount), 0.0);
      error := None;
    }

    /** The clipping of a sell by the holding, the trade unit and the cash. */
    method ClipSell(order: Order, ratio: real, holder: Option<Holder>) returns (error: Option<DealError>)
      requires ValidRules(rules) && ValidAsk(order.AsAsk()) && order.factor == order.quote.factor
      modifies order`dealAmount
      ensures Clipped(order.dealAmount, error) ==
              SellDeal(rules, order.AsAsk(), old(order.dealAmount), ratio, holder)
    {
      hide FeeOn, RoundUnit, Val, IsClose;
      error := None;
      if holder.Some? {
        var current := holder.value.amount;
        if !IsClose(order.dealAmount, current) {
          var rounded := RoundAmount(rules, MinReal(current, order.dealAmount), order.factor);
          if rounded.Err? {
            return Some(rounded.error);
          }
          order.dealAmount := rounded.value;
        }
        var val := Val(order.dealAmount, order.quote.price);
        if holder.value.cash + val < FeeOn(val, ratio, rules.minCost) {
          order.dealAmount := 0.0;
        }
      }
    }

    /** The clipping of a buy by the cash and the trade unit. */
    method ClipBuy(order: Order, ratio: real, holder: Option<Holder>) returns (error: Option<DealError>)
      requires ValidRules(rules) && ValidAsk(order.AsAsk()) && order.factor == order.quote.factor && ratio >= 0.0
      modifies order`dealAmount
      ensures Clipped(order.dealAmount, error) ==
              BuyDeal(rules, order.AsAsk(), old(order.dealAmount), ratio, holder)
    {
      hide FeeOn, BuyLimit, RoundUnit, Val;
      var most := order.dealAmount;
      if holder.Some? {
        var cash, val := holder.value.cash, Val(order.dealAmount, order.quote.price);
        if cash < FeeOn(val, ratio, rules.minCost) {
          order.dealAmount := 0.0;
          return None;
        } else if cash < val + FeeOn(val, ratio, rules.minCost) {
          if ratio == 0.0 {
            return Some(DivisionByZero);
          }
          most := MinReal(BuyLimit(order.quote.price, cash, ratio, rules.minCost), order.dealAmount);
        }
      }
      var rounded := RoundAmount(rules, most, order.factor);
      if rounded.Err? {
        return Some(rounded.error);
      }
      order.dealAmount := rounded.value;
      error := None;
    }

    method CalcTradeInfoByOrder(order: Order, holder: Option<Holder>, dealt: real)
      returns (val: real, fee: real, error: Option<DealError>)
      requires ValidRules(rules) && ValidAsk(order.AsAsk())
      modifies order
      ensures order.factor == order.quote.factor
      ensures Clipped(order.dealAmount, error) == DealAmount(rules, order.AsAsk(), holder, dealt)
      ensures error == None ==> val == Val(order.dealAmount, order.quote.price)
      ensures error == None ==> fee == Fee(rules, Rate(rules, order.AsAsk(), dealt), val)
      ensures error == None && val > 0.00001 ==>
                var ask := order.AsAsk();
                Charged(rules, ask, ClipByVolume(ask.amount, Limits(ask), dealt).amount, val, fee)
    {
      hide FeeOn, SellDeal, BuyDeal, ClipByVolume, Val, CostRatio, Charged;
      val, fee := 0.0, 0.0;
      order.factor := order.quote.factor;
      order.dealAmount := order.amount;
      error := ClipAmountByVolume(order, dealt);
      if error.Some? {
        return;
      }
      var ratio := CostRatio(rules, order.AsAsk(), order.dealAmount);
      if order.dir == SELL {
        error := ClipSell(order, ratio, holder);
      } else {
        error := ClipBuy(order, ratio, holder);
      }
      val := Val(order.dealAmount, order.quote.price);
      fee := FeeOn(val, ratio, rules.minCost);
      ChargedExactly(rules, order.AsAsk(),
                     ClipByVolume(order.amount, Limits(order.AsAsk()), dealt).amount, val);
      if val <= 0.00001 {
        fee := 0.0;
      }
    }

    /** The outermost call: an order that may not be traded is not dealt; a dealt one is booked. */
    method Deal(order: Order, account: Account, dealt: real)
      returns (val: real, fee: real, error: Option<DealError>)
      requires ValidRules(rules) && ValidAsk(order.AsAsk()) && ValidState(account.position.Now())
      modifies order, account.position, account.accum
      ensures account.position == old(account.position) && account.accum == old(account.accum)
      ensures Dealt(account.Now(), order.dealAmount, val, fee, error) ==
              DealOrder(rules, account.enabled, old(account.Now()), order.AsAsk(), dealt)
    {
      hide DealAmount, Val, Fee, Rate, BookTrade;
      if !order.quote.tradable {
        order.dealAmount := 0.0;
        return 0.0, 0.0, None;
      }
      var position := account.position;
      var amount := if order.stock in position.book then position.book[order.stock].amount else 0.0;
      val, fee, error := CalcTradeInfoByOrder(order, Some(Holder(amount, position.cash)), dealt);
      if error.Some? {
        return 0.0, 0.0, error;
      }
      if val > 0.00001 {
        var rejected := account.UpdateOrder(Trade(order.dir, order.stock, val, fee, order.quote.price));
        error := if rejected.Some? then Some(Rejected(rejected.value)) else None;
      }
    }
  }
}
