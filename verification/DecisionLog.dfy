/** Rebuilding the tree of nested decisions from the flat log (format_decisions in
    quant_master/backtest/__init__.py). */
module DecisionLog {
  import opened Common

  /** A decision, with the frequency of the strategy that made it. */
  datatype Decision = Decision(freq: string, id: int)

  /** A level of decisions of one frequency, each with the levels below it. */
  datatype Tree = Nothing | Level(freq: string, items: seq<Item>)

  datatype Item = Item(decision: Decision, sub: Tree)

  // ----- the tree of a log -----

  /** Where the next decision of a frequency is, or the end. */
  function NextAt(ds: seq<Decision>, freq: string, from: nat): (k: nat)
    requires from <= |ds|
    ensures from <= k <= |ds|
    ensures forall j :: from <= j < k ==> ds[j].freq != freq
    ensures k < |ds| ==> ds[k].freq == freq
    decreases |ds| - from
  {
    if from == |ds| || ds[from].freq == freq then from else NextAt(ds, freq, from + 1)
  }

  function Format(ds: seq<Decision>): Tree
    decreases |ds|, 1
  {
    if ds == [] then Nothing else Level(ds[0].freq, Items(ds, ds[0].freq))
  }

  /** Each decision of the level with the tree of what follows it up to the next one. */
  function Items(ds: seq<Decision>, freq: string): seq<Item>
    decreases |ds|, 0
  {
    if ds == [] then []
    else
      var k := NextAt(ds, freq, 1);
      [Item(ds[0], Format(ds[1..k]))] + Items(ds[k..], freq)
  }

  /** The loop over the log, recursing on the slices between decisions of the first frequency. */
  method FormatDecisions(ds: seq<Decision>) returns (tree: Tree)
    ensures tree == Format(ds)
    decreases |ds|
  {
    if |ds| == 0 {
      return Nothing;
    }
    FormatIs(ds);
    hide Items, Format, NextAt;
    var curFreq := ds[0].freq;
    var res: seq<Item> := [];
    var last := 0;
    StartOfItems(ds, curFreq);
    for i := 1 to |ds|
      invariant last < i
      invariant forall j :: last < j < i ==> ds[j].freq != curFreq
      invariant Items(ds, curFreq) == res + Items(ds[last..], curFreq)
    {
      if ds[i].freq == curFreq {
        ItemsAt(ds, curFreq, last, i);
        var sub := FormatDecisions(ds[last + 1..i]);
        AppendAssoc(res, [Item(ds[last], sub)], Items(ds[i..], curFreq));
        res := res + [Item(ds[last], sub)];
        last := i;
      }
    }
    LastItem(ds, curFreq, last);
    var sub := FormatDecisions(ds[last + 1..]);
    return Level(curFreq, res + [Item(ds[last], sub)]);
  }

  lemma {:induction false} FormatIs(ds: seq<Decision>)
    requires ds != []
    ensures Format(ds) == Level(ds[0].freq, Items(ds, ds[0].freq))
  {
    hide Items;
  }

  /** The items from position last on, when the next decision of the frequency is at position i. */
  lemma {:induction false} ItemsAt(ds: seq<Decision>, freq: string, last: nat, i: nat)
    requires last < i <= |ds| && (i < |ds| ==> ds[i].freq == freq)
    requires forall j :: last < j < i ==> ds[j].freq != freq
    ensures Items(ds[last..], freq) == [Item(ds[last], Format(ds[last + 1..i]))] + Items(ds[i..], freq)
  {
    hide Format;
    var rest := ds[last..];
    var k := NextAt(rest, freq, 1);
    assert forall j :: 1 <= j < i - last ==> rest[j] == ds[last + j];
    assert k == i - last;
    assert rest[1..k] == ds[last + 1..i] && rest[k..] == ds[i..];
  }

  lemma {:induction false} StartOfItems(ds: seq<Decision>, freq: string)
    ensures Items(ds, freq) == [] + Items(ds[0..], freq)
  {
    assert ds[0..] == ds;
  }

  lemma {:induction false} LastItem(ds: seq<Decision>, freq: string, last: nat)
    requires last < |ds| && forall j :: last < j < |ds| ==> ds[j].freq != freq
    ensures Items(ds[last..], freq) == [Item(ds[last], Format(ds[last + 1..]))]
  {
    hide Format;
    ItemsAt(ds, freq, last, |ds|);
    assert ds[last + 1..] == ds[last + 1..|ds|] && ds[|ds|..] == [];
  }

  // ----- the log of a tree -----

  function Flatten(tree: Tree): seq<Decision>
    decreases tree, 2
  {
    match tree
    case Nothing => []
    case Level(_, items) => FlattenItems(items)
  }

  function FlattenItems(items: seq<Item>): seq<Decision>
    decreases items, 1
  {
    if items == [] then [] else FlattenItem(items[0]) + FlattenItems(items[1..])
  }

  function FlattenItem(item: Item): seq<Decision>
    decreases item, 0
  {
    [item.decision] + Flatten(item.sub)
  }

  /** Every level has decisions, all of the level's frequency, which no level above it has. */
  predicate Proper(tree: Tree, above: set<string>)
    decreases tree, 2
  {
    match tree
    case Nothing => true
    case Level(freq, items) => freq !in above && items != [] && ProperItems(items, freq, above)
  }

  predicate ProperItems(items: seq<Item>, freq: string, above: set<string>)
    decreases items, 1
  {
    items != [] ==> ProperItem(items[0], freq, above) && ProperItems(items[1..], freq, above)
  }

  predicate ProperItem(item: Item, freq: string, above: set<string>)
    decreases item, 0
  {
    item.decision.freq == freq && Proper(item.sub, above + {freq})
  }

  /** Flattening the tree of a log in pre-order gives the log back. */
  lemma {:induction false} FlattenFormat(ds: seq<Decision>)
    ensures Flatten(Format(ds)) == ds
    decreases |ds|, 1
  {
    if ds != [] {
      FlattenItemsOf(ds, ds[0].freq);
    }
  }

  lemma {:induction false} FlattenItemsOf(ds: seq<Decision>, freq: string)
    ensures FlattenItems(Items(ds, freq)) == ds
    decreases |ds|, 0
  {
    hide Format, Flatten;
    if ds != [] {
      var k := NextAt(ds, freq, 1);
      FlattenFormat(ds[1..k]);
      FlattenItemsOf(ds[k..], freq);
      var first := Item(ds[0], Format(ds[1..k]));
      FlattenCons(first, Items(ds[k..], freq));
      assert ds == [ds[0]] + ds[1..k] + ds[k..];
    }
  }

  lemma {:induction false} FlattenCons(item: Item, items: seq<Item>)
    ensures FlattenItems([item] + items) == [item.decision] + Flatten(item.sub) + FlattenItems(items)
  {
    assert ([item] + items)[1..] == items;
  }

  /** The tree of a log is proper. */
  lemma {:induction false} FormatProper(ds: seq<Decision>, above: set<string>)
    requires forall j :: 0 <= j < |ds| ==> ds[j].freq !in above
    ensures Proper(Format(ds), above)
    decreases |ds|, 1
  {
    if ds != [] {
      ItemsProper(ds, ds[0].freq, above);
    }
  }

  lemma {:induction false} ItemsProper(ds: seq<Decision>, freq: string, above: set<string>)
    requires forall j :: 0 <= j < |ds| ==> ds[j].freq !in above
    requires ds != [] ==> ds[0].freq == freq
    ensures ProperItems(Items(ds, freq), freq, above)
    decreases |ds|, 0
  {
    if ds != [] {
      var k := NextAt(ds, freq, 1);
      var inner, later := ds[1..k], ds[k..];
      assert forall j :: 0 <= j < |inner| ==> inner[j] == ds[j + 1];
      assert forall j :: 0 <= j < |later| ==> later[j] == ds[j + k];
      FormatProper(inner, above + {freq});
      ItemsProper(later, freq, above);
      assert Items(ds, freq)[1..] == Items(later, freq);
    }
  }

  lemma {:induction false} FlattenAvoids(tree: Tree, above: set<string>)
    requires Proper(tree, above)
    ensures forall j :: 0 <= j < |Flatten(tree)| ==> Flatten(tree)[j].freq !in above
    decreases tree, 2
  {
    match tree
    case Nothing =>
    case Level(freq, items) => FlattenItemsAvoid(items, freq, above);
  }

  lemma {:induction false} FlattenItemsAvoid(items: seq<Item>, freq: string, above: set<string>)
    requires ProperItems(items, freq, above) && freq !in above
    ensures forall j :: 0 <= j < |FlattenItems(items)| ==> FlattenItems(items)[j].freq !in above
    ensures items != [] ==> FlattenItems(items) != [] && FlattenItems(items)[0].freq == freq
    decreases items, 1
  {
    if items != [] {
      FlattenItemAvoids(items[0], freq, above);
      FlattenItemsAvoid(items[1..], freq, above);
    }
  }

  lemma {:induction false} FlattenItemAvoids(item: Item, freq: string, above: set<string>)
    requires ProperItem(item, freq, above) && freq !in above
    ensures forall j :: 0 <= j < |FlattenItem(item)| ==> FlattenItem(item)[j].freq !in above
    ensures forall j :: 0 <= j < |Flatten(item.sub)| ==> Flatten(item.sub)[j].freq != freq
    decreases item, 0
  {
    FlattenAvoids(item.sub, above + {freq});
  }

  lemma {:induction false} FormatFlattenProper(tree: Tree, above: set<string>)
    requires Proper(tree, above)
    ensures Format(Flatten(tree)) == tree
    decreases tree, 2
  {
    match tree
    case Nothing =>
    case Level(freq, items) =>
      FlattenItemsAvoid(items, freq, above);
      ItemsFlatten(items, freq, above);
  }

  lemma {:induction false} ItemsFlatten(items: seq<Item>, freq: string, above: set<string>)
    requires ProperItems(items, freq, above) && freq !in above
    ensures Items(FlattenItems(items), freq) == items
    decreases items, 1
  {
    if items != [] {
      ItemFormat(items[0], freq, above);
      ItemsFlatten(items[1..], freq, above);
      FlattenItemAvoids(items[0], freq, above);
      FlattenItemsAvoid(items[1..], freq, above);
      FirstItem(items[0].decision, Flatten(items[0].sub), FlattenItems(items[1..]), freq);
      assert items == [items[0]] + items[1..];
    }
  }

  lemma {:induction false} ItemFormat(item: Item, freq: string, above: set<string>)
    requires ProperItem(item, freq, above)
    ensures Format(Flatten(item.sub)) == item.sub
    decreases item, 0
  {
    FormatFlattenProper(item.sub, above + {freq});
  }

  /** The first item of a log that starts with a decision, its inner log, and the next decision. */
  lemma {:induction false} FirstItem(d: Decision, inner: seq<Decision>, later: seq<Decision>, freq: string)
    requires forall j :: 0 <= j < |inner| ==> inner[j].freq != freq
    requires later != [] ==> later[0].freq == freq
    ensures Items([d] + inner + later, freq) == [Item(d, Format(inner))] + Items(later, freq)
  {
    var ds, n := [d] + inner + later, 1 + |inner|;
    assert forall j :: 1 <= j < n ==> ds[j] == inner[j - 1];
    assert n < |ds| ==> ds[n] == later[0];
    assert NextAt(ds, freq, 1) == n;
    assert ds[1..n] == inner && ds[n..] == later;
  }

  /** Rebuilding the tree from its log gives the tree back exactly when every level uses one
      frequency that no level above it uses. */
  lemma {:induction false} FormatFlattenExactly(tree: Tree)
    ensures Format(Flatten(tree)) == tree <==> Proper(tree, {})
  {
    if Proper(tree, {}) {
      FormatFlattenProper(tree, {});
    }
    FormatProper(Flatten(tree), {});
  }
}
