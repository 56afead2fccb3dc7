/** The expression engine: what an expression evaluates to on a window of its leaf data, and the
    extended window it asks for (quant_master/data/ops.py, base.py and data.py). */
module Expressions {
  import opened Common

  /** Leaf data of one instrument: field name and calendar index to value. */
  type Leaf = (string, int) -> Cell

  /** The operators by how they use the loaded series: element-wise, pair-wise, conditional, a reference to
      another period, an aggregate of a rolling window, the difference to another period, and an
      aggregate of everything loaded so far. Exponentially weighted means, and windows of size zero
      ("since the first value"), are of the last kind: they declare the window of n values that a
      rolling operator of that size declares, or of one value for size zero. */
  datatype Expr =
    | Feature(name: string)
    | Elem(f: Cell -> Cell, e: Expr)
    | Pair(g: (Cell, Cell) -> Cell, left: Expr, right: Expr)
    | If(h: (Cell, Cell, Cell) -> Cell, cond: Expr, left: Expr, right: Expr)
    | Ref(e: Expr, n: int)
    | Rolling(agg: seq<Cell> -> Cell, e: Expr, n: int)
    | PairRolling(agg2: (seq<Cell>, seq<Cell>) -> Cell, left: Expr, right: Expr, n: int)
    | Delta(e: Expr, n: int)
    | Loaded(agg: seq<Cell> -> Cell, e: Expr, n: int)

  /** Window sizes are at least one, and periods of reference are other periods. */
  predicate WellFormed(e: Expr) {
    match e
    case Feature(_) => true
    case Elem(_, a) => WellFormed(a)
    case Pair(_, a, b) => WellFormed(a) && WellFormed(b)
    case If(_, c, a, b) => WellFormed(c) && WellFormed(a) && WellFormed(b)
    case Ref(a, n) => n != 0 && WellFormed(a)
    case Rolling(_, a, n) => n >= 1 && WellFormed(a)
    case PairRolling(_, a, b, n) => n >= 1 && WellFormed(a) && WellFormed(b)
    case Delta(a, n) => n != 0 && WellFormed(a)
    case Loaded(_, a, n) => n >= 1 && WellFormed(a)
  }

  /** How far to the left and right of a period the leaves are needed, as the operators declare it. */
  function ExtendedWindow(e: Expr): (nat, nat)
    requires WellFormed(e)
  {
    match e
    case Feature(_) => (0, 0)
    case Elem(_, a) => ExtendedWindow(a)
    case Pair(_, a, b) => Wider(ExtendedWindow(a), ExtendedWindow(b))
    case If(_, c, a, b) => Wider(ExtendedWindow(c), Wider(ExtendedWindow(a), ExtendedWindow(b)))
    case Ref(a, n) => var (l, r) := ExtendedWindow(a); (MaxInt(l + n, l), MaxInt(r - n, r))
    case Rolling(_, a, n) => var (l, r) := ExtendedWindow(a); (MaxInt(l + n - 1, l), r)
    case PairRolling(_, a, b, n) => var (l, r) := Wider(ExtendedWindow(a), ExtendedWindow(b)); (l + n - 1, r)
    case Delta(a, n) => var (l, r) := ExtendedWindow(a); (MaxInt(l + n - 1, l), r)
    case Loaded(_, a, n) => var (l, r) := ExtendedWindow(a); (MaxInt(l + n - 1, l), r)
  }

  function Wider(a: (nat, nat), b: (nat, nat)): (nat, nat) {
    (MaxInt(a.0, b.0), MaxInt(a.1, b.1))
  }

  function Minus(a: Cell, b: Cell): Cell {
    if a.Num? && b.Num? then Num(a.v - b.v) else NaN
  }

  /** The value at index i when the leaf series are loaded on [lo, hi]. */
  function Eval(e: Expr, leaf: Leaf, lo: int, hi: int, i: int): Cell
    requires lo <= i <= hi && WellFormed(e)
    decreases e, 0, 0
  {
    match e
    case Feature(name) => leaf(name, i)
    case Elem(f, a) => f(Eval(a, leaf, lo, hi, i))
    case Pair(g, a, b) => g(Eval(a, leaf, lo, hi, i), Eval(b, leaf, lo, hi, i))
    case If(h, c, a, b) => h(Eval(c, leaf, lo, hi, i), Eval(a, leaf, lo, hi, i), Eval(b, leaf, lo, hi, i))
    case Ref(a, n) => if lo <= i - n <= hi then Eval(a, leaf, lo, hi, i - n) else NaN
    case Rolling(agg, a, n) => agg(EvalRange(a, leaf, lo, hi, MaxInt(lo, i - n + 1), i))
    case PairRolling(agg2, a, b, n) =>
      var from := MaxInt(lo, i - n + 1);
      agg2(EvalRange(a, leaf, lo, hi, from, i), EvalRange(b, leaf, lo, hi, from, i))
    case Delta(a, n) =>
      if lo <= i - n <= hi then Minus(Eval(a, leaf, lo, hi, i), Eval(a, leaf, lo, hi, i - n)) else NaN
    case Loaded(agg, a, n) => agg(EvalRange(a, leaf, lo, hi, lo, i))
  }

  /** The values at the indices a..b of the loaded range. */
  function EvalRange(e: Expr, leaf: Leaf, lo: int, hi: int, a: int, b: int): (s: seq<Cell>)
    requires lo <= a && b <= hi && WellFormed(e)
    ensures |s| == if a <= b then b - a + 1 else 0
    ensures forall k :: 0 <= k < |s| ==> s[k] == Eval(e, leaf, lo, hi, a + k)
    decreases e, 1, 0
  {
    if a > b then [] else seq(b - a + 1, k requires 0 <= k <= b - a => Eval(e, leaf, lo, hi, a + k))
  }

  /** One unfolding of a value, and of a window. */
  lemma {:induction false} EvalStep(e: Expr, leaf: Leaf, lo: int, hi: int, i: int)
    requires lo <= i <= hi && WellFormed(e)
    ensures Eval(e, leaf, lo, hi, i) ==
            match e
            case Feature(name) => leaf(name, i)
            case Elem(f, a) => f(Eval(a, leaf, lo, hi, i))
            case Pair(g, a, b) => g(Eval(a, leaf, lo, hi, i), Eval(b, leaf, lo, hi, i))
            case If(h, c, a, b) => h(Eval(c, leaf, lo, hi, i), Eval(a, leaf, lo, hi, i), Eval(b, leaf, lo, hi, i))
            case Ref(a, n) => if lo <= i - n <= hi then Eval(a, leaf, lo, hi, i - n) else NaN
            case Rolling(agg, a, n) => agg(EvalRange(a, leaf, lo, hi, MaxInt(lo, i - n + 1), i))
            case PairRolling(agg2, a, b, n) =>
              agg2(EvalRange(a, leaf, lo, hi, MaxInt(lo, i - n + 1), i),
                   EvalRange(b, leaf, lo, hi, MaxInt(lo, i - n + 1), i))
            case Delta(a, n) =>
              if lo <= i - n <= hi then Minus(Eval(a, leaf, lo, hi, i), Eval(a, leaf, lo, hi, i - n)) else NaN
            case Loaded(agg, a, n) => agg(EvalRange(a, leaf, lo, hi, lo, i))
  {
    hide EvalRange;
  }

  // ----- whole series -----

  /** A series n places later, or earlier if n is negative. */
  function Shifted(s: seq<Cell>, n: int): seq<Cell> {
    seq(|s|, k requires 0 <= k < |s| => if 0 <= k - n < |s| then s[k - n] else NaN)
  }

  /** The last n values up to each place, fewer at the start. */
  function LastValues(s: seq<Cell>, k: nat, n: int): seq<Cell>
    requires k < |s| && n >= 1
  {
    s[MaxInt(0, k + 1 - n)..k + 1]
  }

  /** The operators applied to whole series, each to the series of its operands. */
  function OnSeries(e: Expr, leaf: Leaf, lo: int, hi: int): (s: seq<Cell>)
    requires lo <= hi && WellFormed(e)
    ensures |s| == hi - lo + 1
  {
    var size := hi - lo + 1;
    match e
    case Feature(name) => seq(size, k => leaf(name, lo + k))
    case Elem(f, a) =>
      var x := OnSeries(a, leaf, lo, hi);
      seq(size, k requires 0 <= k < size => f(x[k]))
    case Pair(g, a, b) =>
      var x, y := OnSeries(a, leaf, lo, hi), OnSeries(b, leaf, lo, hi);
      seq(size, k requires 0 <= k < size => g(x[k], y[k]))
    case If(h, c, a, b) =>
      var z, x, y := OnSeries(c, leaf, lo, hi), OnSeries(a, leaf, lo, hi), OnSeries(b, leaf, lo, hi);
      seq(size, k requires 0 <= k < size => h(z[k], x[k], y[k]))
    case Ref(a, n) => Shifted(OnSeries(a, leaf, lo, hi), n)
    case Rolling(agg, a, n) =>
      var x := OnSeries(a, leaf, lo, hi);
      seq(size, k requires 0 <= k < size => agg(LastValues(x, k, n)))
    case PairRolling(agg2, a, b, n) =>
      var x, y := OnSeries(a, leaf, lo, hi), OnSeries(b, leaf, lo, hi);
      seq(size, k requires 0 <= k < size => agg2(LastValues(x, k, n), LastValues(y, k, n)))
    case Delta(a, n) =>
      var x := OnSeries(a, leaf, lo, hi);
      var y := Shifted(x, n);
      seq(size, k requires 0 <= k < size =>
        if x[k].Num? && y[k].Num? then Num(x[k].v - y[k].v) else NaN)
    case Loaded(agg, a, n) =>
      var x := OnSeries(a, leaf, lo, hi);
      seq(size, k requires 0 <= k < size => agg(x[..k + 1]))
  }

  /** The last values up to a place of the series are the values at the last indices. */
  lemma {:induction false} LastValuesAt(e: Expr, leaf: Leaf, lo: int, hi: int, k: nat, n: int)
    requires lo + k <= hi && WellFormed(e) && n >= 1
    requires forall j :: 0 <= j <= hi - lo ==> OnSeries(e, leaf, lo, hi)[j] == Eval(e, leaf, lo, hi, lo + j)
    ensures LastValues(OnSeries(e, leaf, lo, hi), k, n) ==
            EvalRange(e, leaf, lo, hi, MaxInt(lo, lo + k - n + 1), lo + k)
    ensures OnSeries(e, leaf, lo, hi)[..k + 1] == EvalRange(e, leaf, lo, hi, lo, lo + k)
  {
    hide OnSeries, Eval;
    var from := MaxInt(0, k + 1 - n);
    var last := OnSeries(e, leaf, lo, hi)[from..k + 1];
    assert forall j :: 0 <= j < |last| ==> last[j] == OnSeries(e, leaf, lo, hi)[from + j];
  }

  lemma {:induction false} SeriesAll(e: Expr, leaf: Leaf, lo: int, hi: int)
    requires lo <= hi && WellFormed(e)
    ensures forall j :: 0 <= j <= hi - lo ==> OnSeries(e, leaf, lo, hi)[j] == Eval(e, leaf, lo, hi, lo + j)
    decreases e, 1
  {
    hide OnSeries, Eval;
    forall j | 0 <= j <= hi - lo
      ensures OnSeries(e, leaf, lo, hi)[j] == Eval(e, leaf, lo, hi, lo + j)
    {
      SeriesIsEval(e, leaf, lo, hi, j);
    }
  }

  /** Evaluating index by index is applying the operators to the whole loaded series. */
  lemma {:induction false} SeriesIsEval(e: Expr, leaf: Leaf, lo: int, hi: int, k: nat)
    requires lo + k <= hi && WellFormed(e)
    ensures OnSeries(e, leaf, lo, hi)[k] == Eval(e, leaf, lo, hi, lo + k)
    decreases e, 0
  {
    hide Eval, EvalRange, LastValues;
    EvalStep(e, leaf, lo, hi, lo + k);
    match e {
      case Feature(name) =>
      case Elem(f, a) => SeriesIsEval(a, leaf, lo, hi, k);
      case Pair(g, a, b) =>
        SeriesIsEval(a, leaf, lo, hi, k);
        SeriesIsEval(b, leaf, lo, hi, k);
      case If(h, c, a, b) =>
        SeriesIsEval(c, leaf, lo, hi, k);
        SeriesIsEval(a, leaf, lo, hi, k);
        SeriesIsEval(b, leaf, lo, hi, k);
      case Ref(a, n) => SeriesAll(a, leaf, lo, hi);
      case Rolling(agg, a, n) =>
        SeriesAll(a, leaf, lo, hi);
        LastValuesAt(a, leaf, lo, hi, k, n);
      case PairRolling(agg2, a, b, n) =>
        SeriesAll(a, leaf, lo, hi);
        SeriesAll(b, leaf, lo, hi);
        LastValuesAt(a, leaf, lo, hi, k, n);
        LastValuesAt(b, leaf, lo, hi, k, n);
      case Delta(a, n) => SeriesAll(a, leaf, lo, hi);
      case Loaded(agg, a, n) =>
        SeriesAll(a, leaf, lo, hi);
        LastValuesAt(a, leaf, lo, hi, k, n);
    }
  }

  /** A difference added to the value it refers to is the operand; it is missing exactly when one of the two
      values is, or lies outside what is loaded. */
  lemma {:induction false} DeltaAddsBack(e: Expr, n: int, leaf: Leaf, lo: int, hi: int, i: int)
    requires WellFormed(e) && n != 0 && lo <= i <= hi
    ensures var d, x := Eval(Delta(e, n), leaf, lo, hi, i), Eval(e, leaf, lo, hi, i);
            && (d.Num? <==> x.Num? && lo <= i - n <= hi && Eval(e, leaf, lo, hi, i - n).Num?)
            && (d.Num? ==> d.v + Eval(e, leaf, lo, hi, i - n).v == x.v)
  {
    EvalStep(Delta(e, n), leaf, lo, hi, i);
    hide Eval;
  }

  // ----- locality -----

  /** Two loaded ranges cut the window [i - l, i + r] in the same way. */
  predicate SameCut(lo: int, hi: int, lo': int, hi': int, i: int, l: nat, r: nat) {
    && lo <= i <= hi && lo' <= i <= hi'
    && MaxInt(lo, i - l) == MaxInt(lo', i - l) && MinInt(hi, i + r) == MinInt(hi', i + r)
  }

  /** A window inside an equally cut window is cut equally, whichever range its centre is in. */
  lemma {:induction false} SameCutInside(
    lo: int, hi: int, lo': int, hi': int, i: int, l: nat, r: nat, j: int, l2: nat, r2: nat)
    requires SameCut(lo, hi, lo', hi', i, l, r) && i - l <= j - l2 && j + r2 <= i + r
    ensures lo <= j <= hi <==> lo' <= j <= hi'
    ensures lo <= j <= hi ==> SameCut(lo, hi, lo', hi', j, l2, r2)
  {
  }

  /** The aggregate looks at no more than the last n values. */
  ghost predicate Windowed(agg: seq<Cell> -> Cell, n: int)
    requires n >= 1
  {
    forall s: seq<Cell> :: |s| > n ==> agg(s) == agg(s[|s| - n..])
  }

  /** Every operator reads within the window it declares: no difference to another period, and no
      aggregate of everything loaded unless it only looks at its window. */
  ghost predicate Local(e: Expr)
    requires WellFormed(e)
  {
    match e
    case Feature(_) => true
    case Elem(_, a) => Local(a)
    case Pair(_, a, b) => Local(a) && Local(b)
    case If(_, c, a, b) => Local(c) && Local(a) && Local(b)
    case Ref(a, _) => Local(a)
    case Rolling(_, a, _) => Local(a)
    case PairRolling(_, a, b, _) => Local(a) && Local(b)
    case Delta(_, _) => false
    case Loaded(agg, a, n) => Local(a) && Windowed(agg, n)
  }

  /** A windowed aggregate of everything loaded is the aggregate of the window. */
  lemma {:induction false} LoadedIsRolling(
    agg: seq<Cell> -> Cell, a: Expr, n: int, leaf: Leaf, lo: int, hi: int, i: int)
    requires WellFormed(a) && n >= 1 && Windowed(agg, n) && lo <= i <= hi
    ensures Eval(Loaded(agg, a, n), leaf, lo, hi, i) == agg(EvalRange(a, leaf, lo, hi, MaxInt(lo, i - n + 1), i))
  {
    hide Eval, EvalRange;
    EvalStep(Loaded(agg, a, n), leaf, lo, hi, i);
    var all, last := EvalRange(a, leaf, lo, hi, lo, i), EvalRange(a, leaf, lo, hi, MaxInt(lo, i - n + 1), i);
    EvalRangeSlice(a, leaf, lo, hi, lo, i, MaxInt(lo, i - n + 1), i);
    if |all| > n {
      assert all[|all| - n..] == last;
    } else {
      assert all == last;
    }
  }

  /** Values in a window are equal when the loaded ranges cut the outer window equally. */
  lemma {:induction false} RangeLocality(
    a: Expr, leaf: Leaf, lo: int, hi: int, lo': int, hi': int, i: int, l: nat, r: nat, n: int)
    requires WellFormed(a) && Local(a) && n >= 1 && SameCut(lo, hi, lo', hi', i, l, r)
    requires l >= ExtendedWindow(a).0 + n - 1 && r >= ExtendedWindow(a).1
    ensures MaxInt(lo, i - n + 1) == MaxInt(lo', i - n + 1)
    ensures EvalRange(a, leaf, lo, hi, MaxInt(lo, i - n + 1), i) ==
            EvalRange(a, leaf, lo', hi', MaxInt(lo', i - n + 1), i)
    decreases a, 1
  {
    hide Eval, EvalRange, ExtendedWindow;
    var (l2, r2) := ExtendedWindow(a);
    var from := MaxInt(lo, i - n + 1);
    assert from == MaxInt(lo', i - n + 1);
    forall j | from <= j <= i
      ensures lo' <= j <= hi' && Eval(a, leaf, lo, hi, j) == Eval(a, leaf, lo', hi', j)
    {
      SameCutInside(lo, hi, lo', hi', i, l, r, j, l2, r2);
      Locality(a, leaf, lo, hi, lo', hi', j);
    }
  }

  /** Locality: the value of a local expression depends only on the leaves in its extended window. */
  lemma {:induction false} Locality(e: Expr, leaf: Leaf, lo: int, hi: int, lo': int, hi': int, i: int)
    requires WellFormed(e) && Local(e) && lo <= i <= hi && lo' <= i <= hi'
    requires SameCut(lo, hi, lo', hi', i, ExtendedWindow(e).0, ExtendedWindow(e).1)
    ensures Eval(e, leaf, lo, hi, i) == Eval(e, leaf, lo', hi', i)
    decreases e, 0
  {
    hide Eval, EvalRange, SameCut;
    var (l, r) := ExtendedWindow(e);
    EvalStep(e, leaf, lo, hi, i);
    EvalStep(e, leaf, lo', hi', i);
    match e
    case Feature(_) =>
    case Elem(_, a) => Locality(a, leaf, lo, hi, lo', hi', i);
    case Pair(_, a, b) =>
      LocalityWithin(a, leaf, lo, hi, lo', hi', i, l, r);
      LocalityWithin(b, leaf, lo, hi, lo', hi', i, l, r);
    case If(_, c, a, b) =>
      LocalityWithin(c, leaf, lo, hi, lo', hi', i, l, r);
      LocalityWithin(a, leaf, lo, hi, lo', hi', i, l, r);
      LocalityWithin(b, leaf, lo, hi, lo', hi', i, l, r);
    case Ref(a, n) =>
      SameCutInside(lo, hi, lo', hi', i, l, r, i - n, ExtendedWindow(a).0, ExtendedWindow(a).1);
      if lo <= i - n <= hi {
        Locality(a, leaf, lo, hi, lo', hi', i - n);
      }
    case Rolling(_, a, n) => RangeLocality(a, leaf, lo, hi, lo', hi', i, l, r, n);
    case PairRolling(_, a, b, n) =>
      RangeLocality(a, leaf, lo, hi, lo', hi', i, l, r, n);
      RangeLocality(b, leaf, lo, hi, lo', hi', i, l, r, n);
    case Loaded(agg, a, n) =>
      LoadedIsRolling(agg, a, n, leaf, lo, hi, i);
      LoadedIsRolling(agg, a, n, leaf, lo', hi', i);
      RangeLocality(a, leaf, lo, hi, lo', hi', i, l, r, n);
  }

  /** The same for an operand with a narrower window. */
  lemma {:induction false} LocalityWithin(
    a: Expr, leaf: Leaf, lo: int, hi: int, lo': int, hi': int, i: int, l: nat, r: nat)
    requires WellFormed(a) && Local(a) && lo <= i <= hi && lo' <= i <= hi'
    requires SameCut(lo, hi, lo', hi', i, l, r) && ExtendedWindow(a).0 <= l && ExtendedWindow(a).1 <= r
    ensures Eval(a, leaf, lo, hi, i) == Eval(a, leaf, lo', hi', i)
    decreases a, 1
  {
    hide Eval, SameCut, ExtendedWindow;
    SameCutInside(lo, hi, lo', hi', i, l, r, i, ExtendedWindow(a).0, ExtendedWindow(a).1);
    Locality(a, leaf, lo, hi, lo', hi', i);
  }

  // ----- the operators that are not local -----

  /** Cutting the loaded range outside the declared window never changes the value. */
  ghost predicate DependsOnWindowOnly(e: Expr)
    requires WellFormed(e)
  {
    forall leaf: Leaf, lo, hi, lo', hi', i ::
      lo <= i <= hi && lo' <= i <= hi' && SameCut(lo, hi, lo', hi', i, ExtendedWindow(e).0, ExtendedWindow(e).1) ==>
        Eval(e, leaf, lo, hi, i) == Eval(e, leaf, lo', hi', i)
  }

  function LeafOf(s: seq<Cell>): Leaf {
    (name, j) => if 0 <= j < |s| then s[j] else NaN
  }

  lemma {:induction false} EvalLeafOf(name: string, s: seq<Cell>, lo: int, hi: int, a: int, b: int)
    requires 0 <= lo <= a && a <= b + 1 && b <= hi && b < |s|
    ensures EvalRange(Feature(name), LeafOf(s), lo, hi, a, b) == s[a..b + 1]
  {
  }

  /** A difference of a feature to another period reads one period outside the window it declares. */
  lemma {:induction false} DeltaIsNotLocal(name: string, n: int)
    requires n != 0
    ensures !DependsOnWindowOnly(Delta(Feature(name), n))
  {
    if n > 0 {
      assert SameCut(0, n, 1, n, n, n - 1, 0);
      ZerosTellApart(name, n, 0, n, 1, n, n);
    } else {
      assert SameCut(0, -n, 0, 0, 0, 0, 0);
      ZerosTellApart(name, n, 0, -n, 0, 0, 0);
    }
  }

  /** With all data zero a difference is zero where its other period is loaded, and missing elsewhere. */
  lemma {:induction false} ZerosTellApart(name: string, n: int, lo: int, hi: int, lo': int, hi': int, i: int)
    requires n != 0 && SameCut(lo, hi, lo', hi', i, MaxInt(n - 1, 0), 0)
    requires lo <= i - n <= hi && !(lo' <= i - n <= hi')
    ensures !DependsOnWindowOnly(Delta(Feature(name), n))
  {
    var e, leaf: Leaf := Delta(Feature(name), n), (_, _) => Num(0.0);
    assert ExtendedWindow(e) == (MaxInt(n - 1, 0), 0);
    EvalStep(e, leaf, lo, hi, i);
    EvalStep(e, leaf, lo', hi', i);
    assert Eval(e, leaf, lo, hi, i) != Eval(e, leaf, lo', hi', i);
  }

  lemma {:induction false} LocalDependsOnWindowOnly(e: Expr)
    requires WellFormed(e) && Local(e)
    ensures DependsOnWindowOnly(e)
  {
    hide Eval, ExtendedWindow, SameCut, Local;
    forall leaf: Leaf, lo, hi, lo', hi', i |
      lo <= i <= hi && lo' <= i <= hi' && SameCut(lo, hi, lo', hi', i, ExtendedWindow(e).0, ExtendedWindow(e).1)
      ensures Eval(e, leaf, lo, hi, i) == Eval(e, leaf, lo', hi', i)
    {
      Locality(e, leaf, lo, hi, lo', hi', i);
    }
  }

  /** An aggregate of everything loaded of a feature keeps to the window it declares exactly when it only
      looks at as many last values. */
  lemma {:induction false} LoadedIsLocalExactly(agg: seq<Cell> -> Cell, name: string, n: int)
    requires n >= 1
    ensures DependsOnWindowOnly(Loaded(agg, Feature(name), n)) <==> Windowed(agg, n)
  {
    var e := Loaded(agg, Feature(name), n);
    hide Eval, ExtendedWindow, DependsOnWindowOnly;
    if Windowed(agg, n) {
      LoadedIsLocal(agg, name, n);
      LocalDependsOnWindowOnly(e);
    } else {
      var s: seq<Cell> :| |s| > n && agg(s) != agg(s[|s| - n..]);
      LoadedReadsOutside(agg, name, n, s);
    }
  }

  lemma {:induction false} LoadedIsLocal(agg: seq<Cell> -> Cell, name: string, n: int)
    requires n >= 1 && Windowed(agg, n)
    ensures Local(Loaded(agg, Feature(name), n))
  {
    hide Windowed;
    assert Local(Feature(name));
  }

  lemma {:induction false} LoadedReadsOutside(agg: seq<Cell> -> Cell, name: string, n: int, s: seq<Cell>)
    requires n >= 1 && |s| > n && agg(s) != agg(s[|s| - n..])
    ensures !DependsOnWindowOnly(Loaded(agg, Feature(name), n))
  {
    var e, m := Loaded(agg, Feature(name), n), |s| - 1;
    assert ExtendedWindow(e) == (n - 1, 0) && SameCut(0, m, m - n + 1, m, m, n - 1, 0);
    hide Eval, ExtendedWindow;
    LoadedOfLeaf(agg, name, n, s, 0);
    LoadedOfLeaf(agg, name, n, s, m - n + 1);
    assert s[0..] == s;
    assert Eval(e, LeafOf(s), 0, m, m) != Eval(e, LeafOf(s), m - n + 1, m, m);
  }

  lemma {:induction false} LoadedOfLeaf(agg: seq<Cell> -> Cell, name: string, n: int, s: seq<Cell>, lo: nat)
    requires n >= 1 && lo < |s|
    ensures Eval(Loaded(agg, Feature(name), n), LeafOf(s), lo, |s| - 1, |s| - 1) == agg(s[lo..])
  {
    EvalLeafOf(name, s, lo, |s| - 1, lo, |s| - 1);
    assert s[lo..|s|] == s[lo..];
  }

  /** The exponentially weighted sum of the values, and of the weights of those that are not missing. */
  function WeightedSum(decay: real, s: seq<Cell>): (real, real) {
    if s == [] then (0.0, 0.0)
    else
      var (sum, weight) := WeightedSum(decay, s[..|s| - 1]);
      match s[|s| - 1]
      case NaN => (decay * sum, decay * weight)
      case Num(x) => (decay * sum + x, decay * weight + 1.0)
  }

  /** The exponentially weighted mean (EMA of span N has decay (N - 1) / (N + 1)). */
  function WeightedMean(decay: real): seq<Cell> -> Cell {
    s => var (sum, weight) := WeightedSum(decay, s); if weight == 0.0 then NaN else Num(sum / weight)
  }

  function OneThenZeros(n: nat): seq<Cell> {
    [Num(1.0)] + Zeros(n)
  }

  function Zeros(n: nat): seq<Cell> {
    seq(n, _ => Num(0.0))
  }

  lemma {:induction false} SumOfZeros(decay: real, n: nat)
    requires 0.0 < decay < 1.0
    ensures WeightedSum(decay, Zeros(n)).0 == 0.0
    ensures n > 0 ==> WeightedSum(decay, Zeros(n)).1 > 0.0
    ensures WeightedSum(decay, OneThenZeros(n)).0 > 0.0 && WeightedSum(decay, OneThenZeros(n)).1 > 0.0
    ensures WeightedSum(decay, Zeros(n)).1 >= 0.0
  {
    if n > 0 {
      SumOfZeros(decay, n - 1);
      assert Zeros(n)[..n - 1] == Zeros(n - 1);
      assert OneThenZeros(n)[..n] == OneThenZeros(n - 1);
    } else {
      assert OneThenZeros(0) == [Num(1.0)] && [Num(1.0)][..0] == [];
    }
  }

  /** No window is enough for an exponentially weighted mean: the first of any number of values still
      counts. So an EMA of span 2 or more does not keep to the window it declares. */
  lemma {:induction false} WeightedMeanNotWindowed(decay: real, n: int)
    requires 0.0 < decay < 1.0 && n >= 1
    ensures !Windowed(WeightedMean(decay), n)
  {
    var s := OneThenZeros(n);
    SumOfZeros(decay, n);
    assert s[|s| - n..] == Zeros(n);
    var (sum, weight) := WeightedSum(decay, s);
    assert sum / weight > 0.0;
    assert WeightedSum(decay, Zeros(n)).0 / WeightedSum(decay, Zeros(n)).1 == 0.0;
    assert WeightedMean(decay)(s) != WeightedMean(decay)(s[|s| - n..]);
  }

  // ----- loading -----

  /** The calendar indices an instrument's feature files hold: first up to, not including, stop. */
  datatype Stored = Stored(first: nat, stop: nat)

  /** A series on consecutive calendar indices. */
  datatype Series = Series(start: int, values: seq<Cell>)

  const EmptySeries := Series(0, [])

  function SeriesOn(e: Expr, leaf: Leaf, lo: int, hi: int, a: int, b: int): Series
    requires lo <= a && b <= hi && WellFormed(e)
  {
    if a > b then EmptySeries else Series(a, EvalRange(e, leaf, lo, hi, a, b))
  }

  /** Load an expression for a query range: leaf files are cut to what they hold. */
  function Load(e: Expr, leaf: Leaf, stored: Stored, queryStart: int, queryEnd: int): Series
    requires WellFormed(e)
  {
    var lo, hi := MaxInt(stored.first, queryStart), MinInt(stored.stop - 1, queryEnd);
    SeriesOn(e, leaf, lo, hi, lo, hi)
  }

  /** Label-based slice of a series: values with labels outside the range are dropped from both ends. */
  function Loc(s: Series, start: int, end: int): Series
    decreases |s.values|
  {
    var n := |s.values|;
    if n == 0 then EmptySeries
    else if s.start < start then Loc(Series(s.start + 1, s.values[1..]), start, end)
    else if s.start + n - 1 > end then Loc(Series(s.start, s.values[..n - 1]), start, end)
    else s
  }

  /** The slice by its positions. */
  function Sliced(s: Series, start: int, end: int): Series {
    var a, b := MaxInt(s.start, start), MinInt(s.start + |s.values| - 1, end);
    if a > b then EmptySeries else Series(a, s.values[a - s.start..b + 1 - s.start])
  }

  /** Dropping values one by one from both ends is slicing once. */
  lemma {:induction false} LocIsSliced(s: Series, start: int, end: int)
    ensures Loc(s, start, end) == Sliced(s, start, end)
    decreases |s.values|
  {
    var n := |s.values|;
    if n > 0 {
      if s.start < start {
        LocIsSliced(Series(s.start + 1, s.values[1..]), start, end);
        SlicedTail(s, start, end);
      } else if s.start + n - 1 > end {
        LocIsSliced(Series(s.start, s.values[..n - 1]), start, end);
        SlicedFront(s, start, end);
      } else {
        assert s.values[0..n] == s.values;
      }
    }
  }

  lemma {:induction false} SliceOfRest(values: seq<Cell>, i: nat, j: nat)
    requires 1 <= i <= j <= |values|
    ensures values[1..][i - 1..j - 1] == values[i..j]
  {
  }

  lemma {:induction false} SliceOfFront(values: seq<Cell>, i: nat, j: nat)
    requires i <= j < |values|
    ensures values[..|values| - 1][i..j] == values[i..j]
  {
  }

  lemma {:induction false} SlicedTail(s: Series, start: int, end: int)
    requires s.values != [] && s.start < start
    ensures Sliced(Series(s.start + 1, s.values[1..]), start, end) == Sliced(s, start, end)
  {
    var a, b := MaxInt(s.start, start), MinInt(s.start + |s.values| - 1, end);
    assert MaxInt(s.start + 1, start) == a;
    if a <= b {
      var i, j := a - s.start, b + 1 - s.start;
      SliceOfRest(s.values, i, j);
    }
  }

  lemma {:induction false} SlicedFront(s: Series, start: int, end: int)
    requires s.values != [] && s.start + |s.values| - 1 > end
    ensures Sliced(Series(s.start, s.values[..|s.values| - 1]), start, end) == Sliced(s, start, end)
  {
    var n, a, b := |s.values|, MaxInt(s.start, start), MinInt(s.start + |s.values| - 1, end);
    assert MinInt(s.start + (n - 1) - 1, end) == b;
    if a <= b {
      var i, j := a - s.start, b + 1 - s.start;
      SliceOfFront(s.values, i, j);
    }
  }

  /** The provider's answer for a range of calendar indices: load the extended window, then cut. */
  function Expression(e: Expr, leaf: Leaf, stored: Stored, startIndex: int, endIndex: int): Series
    requires WellFormed(e)
  {
    var (l, r) := ExtendedWindow(e);
    Loc(Load(e, leaf, stored, MaxInt(0, startIndex - l), endIndex + r), startIndex, endIndex)
  }

  /** The simple meaning: evaluate on all stored data. */
  function Whole(e: Expr, leaf: Leaf, stored: Stored): Series
    requires WellFormed(e)
  {
    SeriesOn(e, leaf, stored.first, stored.stop - 1, stored.first, stored.stop - 1)
  }

  /** Values at a sub-range agree when the two loaded ranges cut every window in it the same way. */
  lemma {:induction false} EvalRangeLocal(e: Expr, leaf: Leaf, lo: int, hi: int, lo': int, hi': int, a: int, b: int)
    requires WellFormed(e) && Local(e) && lo <= a && b <= hi && lo' <= a && b <= hi'
    requires forall i :: a <= i <= b ==> SameCut(lo, hi, lo', hi', i, ExtendedWindow(e).0, ExtendedWindow(e).1)
    ensures EvalRange(e, leaf, lo, hi, a, b) == EvalRange(e, leaf, lo', hi', a, b)
  {
    forall i | a <= i <= b
      ensures Eval(e, leaf, lo, hi, i) == Eval(e, leaf, lo', hi', i)
    {
      Locality(e, leaf, lo, hi, lo', hi', i);
    }
  }

  lemma {:induction false} EvalRangeSlice(e: Expr, leaf: Leaf, lo: int, hi: int, a: int, b: int, c: int, d: int)
    requires WellFormed(e) && lo <= a <= c && c <= d + 1 && d <= b <= hi
    ensures EvalRange(e, leaf, lo, hi, a, b)[c - a..d + 1 - a] == EvalRange(e, leaf, lo, hi, c, d)
  {
  }

  lemma {:induction false} EvalRangeConcat(e: Expr, leaf: Leaf, lo: int, hi: int, a: int, m: int, b: int)
    requires WellFormed(e) && lo <= a <= m && m <= b + 1 && b <= hi
    ensures EvalRange(e, leaf, lo, hi, a, m - 1) + EvalRange(e, leaf, lo, hi, m, b) == EvalRange(e, leaf, lo, hi, a, b)
  {
  }

  /** Cutting a series of values gives the values of the cut range. */
  lemma {:induction false} LocOfSeries(e: Expr, leaf: Leaf, lo: int, hi: int, start: int, end: int)
    requires WellFormed(e)
    ensures var a, b := MaxInt(lo, start), MinInt(hi, end);
            Loc(SeriesOn(e, leaf, lo, hi, lo, hi), start, end) == SeriesOn(e, leaf, lo, hi, a, b)
  {
    hide Eval, EvalRange, Loc;
    var a, b := MaxInt(lo, start), MinInt(hi, end);
    LocIsSliced(SeriesOn(e, leaf, lo, hi, lo, hi), start, end);
    if a <= b {
      EvalRangeSlice(e, leaf, lo, hi, lo, hi, a, b);
    }
  }

  /** Whatever range is asked for, the provider evaluates on what it has loaded for it. */
  lemma {:induction false} ExpressionIsLoaded(e: Expr, leaf: Leaf, stored: Stored, startIndex: int, endIndex: int)
    requires WellFormed(e) && 0 <= startIndex <= endIndex
    ensures var lo := MaxInt(stored.first, MaxInt(0, startIndex - ExtendedWindow(e).0));
            var hi := MinInt(stored.stop - 1, endIndex + ExtendedWindow(e).1);
            Expression(e, leaf, stored, startIndex, endIndex) ==
            SeriesOn(e, leaf, lo, hi, MaxInt(stored.first, startIndex), MinInt(stored.stop - 1, endIndex))
  {
    hide Loc, EvalRange;
    var (l, r) := ExtendedWindow(e);
    var lo, hi := MaxInt(stored.first, MaxInt(0, startIndex - l)), MinInt(stored.stop - 1, endIndex + r);
    LocOfSeries(e, leaf, lo, hi, startIndex, endIndex);
  }

  /** For a local expression, loading only the extended window gives the same answer as evaluating on all
      stored data and cutting afterwards. */
  lemma {:induction false} WindowedIsWhole(e: Expr, leaf: Leaf, stored: Stored, startIndex: int, endIndex: int)
    requires WellFormed(e) && Local(e) && 0 <= startIndex <= endIndex
    ensures Expression(e, leaf, stored, startIndex, endIndex) == Loc(Whole(e, leaf, stored), startIndex, endIndex)
  {
    hide Loc, Eval, EvalRange, SameCut, Expression, ExtendedWindow, Local;
    var (l, r) := ExtendedWindow(e);
    var lo, hi := MaxInt(stored.first, MaxInt(0, startIndex - l)), MinInt(stored.stop - 1, endIndex + r);
    var a, b := MaxInt(stored.first, startIndex), MinInt(stored.stop - 1, endIndex);
    ExpressionIsLoaded(e, leaf, stored, startIndex, endIndex);
    LocOfSeries(e, leaf, stored.first, stored.stop - 1, startIndex, endIndex);
    if a <= b {
      var first: int, last := stored.first, stored.stop - 1;
      forall i | a <= i <= b
        ensures SameCut(lo, hi, first, last, i, l, r)
      {
        WindowCutEqually(stored, startIndex, endIndex, l, r, lo, hi, i);
      }
      EvalRangeLocal(e, leaf, lo, hi, stored.first, stored.stop - 1, a, b);
    }
  }

  lemma {:induction false} WindowCutEqually(
    stored: Stored, startIndex: int, endIndex: int, l: nat, r: nat, lo: int, hi: int, i: int)
    requires 0 <= startIndex <= i <= endIndex && stored.first <= i < stored.stop
    requires lo == MaxInt(stored.first, MaxInt(0, startIndex - l)) && hi == MinInt(stored.stop - 1, endIndex + r)
    ensures SameCut(lo, hi, stored.first, stored.stop - 1, i, l, r)
  {
  }

  // ----- differences -----

  /** An expression that reads its leaves at no other period: a feature, or features combined
      element-wise, pair-wise or conditionally. */
  ghost predicate Pointwise(e: Expr) {
    WellFormed(e) && Local(e) && ExtendedWindow(e) == (0, 0)
  }

  function ValueAt(e: Expr, leaf: Leaf, i: int): Cell
    requires WellFormed(e)
  {
    Eval(e, leaf, i, i, i)
  }

  lemma {:induction false} PointwiseAnywhere(e: Expr, leaf: Leaf, lo: int, hi: int, i: int)
    requires Pointwise(e) && lo <= i <= hi
    ensures Eval(e, leaf, lo, hi, i) == ValueAt(e, leaf, i)
  {
    hide Eval, Local;
    Locality(e, leaf, lo, hi, i, i, i);
  }

  /** The window that a difference of such an expression declares reaches back for an earlier period, and
      nowhere for a later one. */
  function BackWindow(n: int): nat {
    MaxInt(n - 1, 0)
  }

  lemma {:induction false} DeltaWindow(e: Expr, n: int)
    requires Pointwise(e) && n != 0
    ensures ExtendedWindow(Delta(e, n)) == (BackWindow(n), 0)
  {
  }

  /** The other period of index i is in the range [first, last], but not in [lo, hi]. */
  predicate LeftOut(n: int, lo: int, hi: int, first: int, last: int, i: int) {
    first <= i - n <= last && !(lo <= i - n <= hi)
  }

  predicate NoDifference(e: Expr, n: int, leaf: Leaf, i: int)
    requires WellFormed(e)
  {
    Minus(ValueAt(e, leaf, i), ValueAt(e, leaf, i - n)) == NaN
  }

  /** A difference on a part of a loaded range is the one on the whole unless the part leaves its other
      period out, and there is a difference. */
  lemma {:induction false} DeltaAt(
    e: Expr, n: int, leaf: Leaf, lo: int, hi: int, first: int, last: int, i: int)
    requires Pointwise(e) && n != 0 && first <= lo <= i <= hi <= last
    ensures Eval(Delta(e, n), leaf, lo, hi, i) == Eval(Delta(e, n), leaf, first, last, i)
            <==> !LeftOut(n, lo, hi, first, last, i) || NoDifference(e, n, leaf, i)
  {
    EvalStep(Delta(e, n), leaf, lo, hi, i);
    EvalStep(Delta(e, n), leaf, first, last, i);
    hide Eval, Local, ValueAt;
    PointwiseAnywhere(e, leaf, lo, hi, i);
    PointwiseAnywhere(e, leaf, first, last, i);
    if lo <= i - n <= hi {
      PointwiseAnywhere(e, leaf, lo, hi, i - n);
    }
    if first <= i - n <= last {
      PointwiseAnywhere(e, leaf, first, last, i - n);
    }
  }

  /** The values of a range agree exactly when each of them does. */
  lemma {:induction false} DeltaRanges(
    e: Expr, n: int, leaf: Leaf, lo: int, hi: int, first: int, last: int, a: int, b: int)
    requires Pointwise(e) && n != 0 && first <= lo <= a && b <= hi <= last
    ensures EvalRange(Delta(e, n), leaf, lo, hi, a, b) ==
            EvalRange(Delta(e, n), leaf, first, last, a, b)
            <==> forall i :: a <= i <= b && LeftOut(n, lo, hi, first, last, i) ==> NoDifference(e, n, leaf, i)
  {
    var some, whole := EvalRange(Delta(e, n), leaf, lo, hi, a, b), EvalRange(Delta(e, n), leaf, first, last, a, b);
    hide Eval, LeftOut, NoDifference, EvalRange, Pointwise;
    forall i | a <= i <= b
      ensures some[i - a] == whole[i - a] <==> !LeftOut(n, lo, hi, first, last, i) || NoDifference(e, n, leaf, i)
    {
      DeltaAt(e, n, leaf, lo, hi, first, last, i);
    }
    if forall i :: a <= i <= b && LeftOut(n, lo, hi, first, last, i) ==> NoDifference(e, n, leaf, i) {
      forall k | 0 <= k < |some|
        ensures some[k] == whole[k]
      {
        assert !LeftOut(n, lo, hi, first, last, a + k) || NoDifference(e, n, leaf, a + k);
      }
      assert some == whole;
    }
  }

  /** For an earlier period: the first value asked for has no stored earlier period, or there is no difference
      to it. For a later period: there is no difference wherever the later period is stored, but after the
      range asked for. */
  predicate DeltaCovered(e: Expr, n: int, leaf: Leaf, stored: Stored, startIndex: int, endIndex: int)
    requires WellFormed(e)
  {
    if n >= 1 then
      startIndex - n < stored.first || startIndex >= stored.stop || NoDifference(e, n, leaf, startIndex)
    else
      var last := MinInt(stored.stop - 1, endIndex);
      forall i :: MaxInt(stored.first, startIndex) <= i <= last && last < i - n < stored.stop ==>
                    NoDifference(e, n, leaf, i)
  }

  /** The provider's answer for a difference is that of all stored data exactly then. */
  lemma {:induction false} DeltaWindowedExactly(
    e: Expr, n: int, leaf: Leaf, stored: Stored, startIndex: int, endIndex: int)
    requires Pointwise(e) && n != 0 && 0 <= startIndex <= endIndex
    ensures Expression(Delta(e, n), leaf, stored, startIndex, endIndex) ==
            Loc(Whole(Delta(e, n), leaf, stored), startIndex, endIndex)
            <==> DeltaCovered(e, n, leaf, stored, startIndex, endIndex)
  {
    hide EvalRange, Eval, Loc, Expression, ExtendedWindow, NoDifference, LeftOut;
    var first, last := stored.first, stored.stop - 1;
    var lo, hi := MaxInt(first, MaxInt(0, startIndex - BackWindow(n))), MinInt(last, endIndex);
    var a := MaxInt(first, startIndex);
    DeltaWindow(e, n);
    ExpressionIsLoaded(Delta(e, n), leaf, stored, startIndex, endIndex);
    LocOfSeries(Delta(e, n), leaf, first, last, startIndex, endIndex);
    if a <= hi {
      DeltaRanges(e, n, leaf, lo, hi, first, last, a, hi);
      LeftOutExactly(n, stored, startIndex, endIndex);
    }
  }

  /** Which differences of a range leave their other period out, among those asked for. */
  lemma {:induction false} LeftOutExactly(n: int, stored: Stored, startIndex: int, endIndex: int)
    requires n != 0 && 0 <= startIndex <= endIndex
    ensures var first, last := stored.first, stored.stop - 1;
            var lo, hi := MaxInt(first, MaxInt(0, startIndex - BackWindow(n))), MinInt(last, endIndex);
            forall i :: MaxInt(first, startIndex) <= i <= hi ==>
              (LeftOut(n, lo, hi, first, last, i) <==>
                 if n >= 1 then i == startIndex && first <= startIndex - n else hi < i - n < stored.stop)
  {
  }
}
