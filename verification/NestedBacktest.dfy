/** The ledger under nested execution: every level's executor deals through one shared position
    (quant_master/backtest/executor.py, account.py). A run of any depth is one flat simulated run. */
module NestedBacktest {
  import opened Common
  import opened NestedExecution
  import opened Calendars
  import Position
  import Account
  import Exchange
  import Simulator

  /** What happens at the steps of a run: the orders of the atomic ones, in the order they are dealt in, the
      closes at the end of each step of any level, and how the executor of each level settles. */
  datatype Trading = Trading(asks: Step -> seq<Exchange.Ask>, closes: Step -> map<string, real>,
                             settle: nat -> Position.SettleType)

  datatype NestedError = Dealing(reason: Exchange.DealError) | Running(error: RunError)

  datatype NestedRan =
    NestedRan(state: Simulator.SimState, fills: seq<Simulator.Fill>, error: Option<NestedError>)

  ghost predicate ValidTrading(t: Trading) {
    forall s, i :: 0 <= i < |t.asks(s)| ==> Exchange.ValidAsk(t.asks(s)[i])
  }

  // ----- the events of a step -----

  /** The day of an atomic step. */
  function DayOf(w: Setting, s: Step): int
    requires w.cals != []
  {
    var points := w.cals[|w.cals| - 1].points;
    if s.at < |points| then Midnight(points[s.at]) else 0
  }

  function Submits(w: Setting, t: Trading, s: Step): (events: seq<Simulator.Event>)
    requires w.cals != []
    ensures |events| == |t.asks(s)|
    ensures forall i :: 0 <= i < |events| ==> events[i] == Simulator.Submit(DayOf(w, s), t.asks(s)[i])
  {
    seq(|t.asks(s)|, i requires 0 <= i < |t.asks(s)| => Simulator.Submit(DayOf(w, s), t.asks(s)[i]))
  }

  function Opening(t: Trading, s: Step): seq<Simulator.Event> {
    if t.settle(s.level) == Position.NoSettle then [] else [Simulator.SettleOpen(t.settle(s.level))]
  }

  function Closing(t: Trading, s: Step): seq<Simulator.Event> {
    [Simulator.BarEnd(t.closes(s))] + if t.settle(s.level) == Position.NoSettle then [] else [Simulator.SettleEnd]
  }

  // ----- the nested run -----

  /** Events fed to the shared account. */
  function Feed(r: Exchange.Rules, enabled: bool, st: Simulator.SimState, events: seq<Simulator.Event>): (n: NestedRan)
    requires Exchange.ValidRules(r) && Simulator.ValidEvents(events) && Position.ValidState(st.ledger.pos)
    ensures Position.ValidState(n.state.ledger.pos)
  {
    var ran := Simulator.Simulate(r, enabled, st, events);
    NestedRan(ran.state, ran.fills, if ran.error.Some? then Some(Dealing(ran.error.value)) else None)
  }

  function After(first: NestedRan, rest: NestedRan): NestedRan {
    NestedRan(rest.state, first.fills + rest.fills, rest.error)
  }

  /** One step of any level on the shared account: settlement is opened, the orders are dealt or the inner
      steps run, the holdings take their closes, and the settlement ends. */
  ghost function RunStep(
    w: Setting, t: Trading, r: Exchange.Rules, enabled: bool, st: Simulator.SimState, s: Step): (n: NestedRan)
    requires Levels(w) && Stands(w, s) && ValidTrading(t) && Exchange.ValidRules(r)
    requires Position.ValidState(st.ledger.pos)
    ensures Position.ValidState(n.state.ledger.pos)
    decreases |w.cals| - s.level, 1, 0
  {
    var atomic := s.level == |w.cals| - 1;
    if atomic && s.decision.range.ByIndex? then NestedRan(st, [], Some(Running(AtomicRange)))
    else
      var settled := Feed(r, enabled, st, Opening(t, s));
      if settled.error.Some? then settled
      else
        var body :=
          if atomic then Feed(r, enabled, settled.state, Submits(w, t, s))
          else
            match NestOf(w, s)
            case Err(_) => NestedRan(settled.state, [], Some(Running(BeyondCalendar)))
            case Ok(n) => RunInnerSteps(w, t, r, enabled, settled.state, n, 0);
        var dealt := After(settled, body);
        if dealt.error.Some? then dealt else After(dealt, Feed(r, enabled, dealt.state, Closing(t, s)))
  }

  ghost function RunInnerSteps(
    w: Setting, t: Trading, r: Exchange.Rules, enabled: bool, st: Simulator.SimState, n: Nest, k: nat)
    : (ran: NestedRan)
    requires Levels(w) && Nested(w, n) && ValidTrading(t) && Exchange.ValidRules(r)
    requires Position.ValidState(st.ledger.pos)
    ensures Position.ValidState(ran.state.ledger.pos)
    decreases |w.cals| - n.step.level, 0, Len(n) - k
  {
    if Ends(w, n, k) then NestedRan(st, [], None)
    else if Enters(w, n, k) then
      var first := RunStep(w, t, r, enabled, st, InnerStep(w, n, k));
      if first.error.Some? then first
      else After(first, RunInnerSteps(w, t, r, enabled, first.state, n, k + 1))
    else RunInnerSteps(w, t, r, enabled, st, n, k + 1)
  }

  /** The loop of a backtest over the outermost calendar. */
  ghost function RunOuterSteps(
    w: Setting, t: Trading, r: Exchange.Rules, enabled: bool, st: Simulator.SimState, i: nat, hi: nat)
    : (ran: NestedRan)
    requires Levels(w) && hi < |w.cals[0].points| && ValidTrading(t) && Exchange.ValidRules(r)
    requires Position.ValidState(st.ledger.pos)
    ensures Position.ValidState(ran.state.ledger.pos)
    decreases hi + 1 - i
  {
    if i > hi then NestedRan(st, [], None)
    else
      var first := RunStep(w, t, r, enabled, st, OuterStep(w, i));
      if first.error.Some? then first
      else After(first, RunOuterSteps(w, t, r, enabled, first.state, i + 1, hi))
  }

  // ----- the flat run -----

  /** The events of a run in order, and the error of the run itself that ends them. */
  datatype Stream = Stream(events: seq<Simulator.Event>, error: Option<RunError>)

  function Chain(a: Stream, b: Stream): (c: Stream)
    ensures Simulator.ValidEvents(a.events) && Simulator.ValidEvents(b.events) ==> Simulator.ValidEvents(c.events)
  {
    if a.error.Some? then a else Stream(a.events + b.events, b.error)
  }

  ghost function StepEvents(w: Setting, t: Trading, s: Step): (stream: Stream)
    requires Levels(w) && Stands(w, s) && ValidTrading(t)
    ensures Simulator.ValidEvents(stream.events)
    decreases |w.cals| - s.level, 1, 0
  {
    var atomic := s.level == |w.cals| - 1;
    if atomic && s.decision.range.ByIndex? then Stream([], Some(AtomicRange))
    else
      var body :=
        if atomic then Stream(Submits(w, t, s), None)
        else
          match NestOf(w, s)
          case Err(_) => Stream([], Some(BeyondCalendar))
          case Ok(n) => InnerEvents(w, t, n, 0);
      Chain(Chain(Stream(Opening(t, s), None), body), Stream(Closing(t, s), None))
  }

  ghost function InnerEvents(w: Setting, t: Trading, n: Nest, k: nat): (stream: Stream)
    requires Levels(w) && Nested(w, n) && ValidTrading(t)
    ensures Simulator.ValidEvents(stream.events)
    decreases |w.cals| - n.step.level, 0, Len(n) - k
  {
    if Ends(w, n, k) then Stream([], None)
    else if Enters(w, n, k) then Chain(StepEvents(w, t, InnerStep(w, n, k)), InnerEvents(w, t, n, k + 1))
    else InnerEvents(w, t, n, k + 1)
  }

  ghost function OuterEvents(w: Setting, t: Trading, i: nat, hi: nat): (stream: Stream)
    requires Levels(w) && hi < |w.cals[0].points| && ValidTrading(t)
    ensures Simulator.ValidEvents(stream.events)
    decreases hi + 1 - i
  {
    if i > hi then Stream([], None)
    else Chain(StepEvents(w, t, OuterStep(w, i)), OuterEvents(w, t, i + 1, hi))
  }

  /** The events simulated one after the other, then the error of the run, if dealing raised none. */
  function Flat(r: Exchange.Rules, enabled: bool, st: Simulator.SimState, s: Stream): NestedRan
    requires Exchange.ValidRules(r) && Simulator.ValidEvents(s.events) && Position.ValidState(st.ledger.pos)
  {
    var fed := Feed(r, enabled, st, s.events);
    if fed.error == None && s.error.Some? then fed.(error := Some(Running(s.error.value))) else fed
  }

  /** A flat run of two streams is the run of the one, then of the other. */
  lemma {:induction false} FlatChain(
    r: Exchange.Rules, enabled: bool, st: Simulator.SimState, a: Stream, b: Stream)
    requires Exchange.ValidRules(r) && Position.ValidState(st.ledger.pos)
    requires Simulator.ValidEvents(a.events) && Simulator.ValidEvents(b.events)
    ensures Simulator.ValidEvents(Chain(a, b).events)
    ensures var first := Flat(r, enabled, st, a);
            Flat(r, enabled, st, Chain(a, b)) ==
            if first.error.Some? then first else After(first, Flat(r, enabled, first.state, b))
  {
    hide Simulator.Simulate;
    Simulator.SimulateAppend(r, enabled, st, a.events, b.events);
  }

  lemma {:induction false} FlatNothing(
    r: Exchange.Rules, enabled: bool, st: Simulator.SimState, events: seq<Simulator.Event>)
    requires Exchange.ValidRules(r) && Position.ValidState(st.ledger.pos) && Simulator.ValidEvents(events)
    ensures Flat(r, enabled, st, Stream([], None)) == NestedRan(st, [], None)
    ensures Flat(r, enabled, st, Stream([], Some(AtomicRange))) == NestedRan(st, [], Some(Running(AtomicRange)))
    ensures Flat(r, enabled, st, Stream([], Some(BeyondCalendar))) == NestedRan(st, [], Some(Running(BeyondCalendar)))
    ensures Flat(r, enabled, st, Stream(events, None)) == Feed(r, enabled, st, events)
  {
    Simulator.RunNothing(r, enabled, st, []);
  }

  /** Running a step of any level on the shared account is simulating its events one after the other. */
  lemma {:induction false} StepIsFlat(
    w: Setting, t: Trading, r: Exchange.Rules, enabled: bool, st: Simulator.SimState, s: Step)
    requires Levels(w) && Stands(w, s) && ValidTrading(t) && Exchange.ValidRules(r)
    requires Position.ValidState(st.ledger.pos)
    ensures RunStep(w, t, r, enabled, st, s) == Flat(r, enabled, st, StepEvents(w, t, s))
    decreases |w.cals| - s.level, 1, 0
  {
    var atomic := s.level == |w.cals| - 1;
    FlatNothing(r, enabled, st, Opening(t, s));
    if !(atomic && s.decision.range.ByIndex?) {
      var open, close := Stream(Opening(t, s), None), Stream(Closing(t, s), None);
      var settled := Feed(r, enabled, st, open.events);
      var body := if atomic then Stream(Submits(w, t, s), None)
                  else if NestOf(w, s).Err? then Stream([], Some(BeyondCalendar))
                  else InnerEvents(w, t, NestOf(w, s).value, 0);
      FlatNothing(r, enabled, settled.state, if atomic then Submits(w, t, s) else []);
      if !atomic && NestOf(w, s).Ok? {
        InnerIsFlat(w, t, r, enabled, settled.state, NestOf(w, s).value, 0);
      }
      FlatChain(r, enabled, st, open, body);
      FlatChain(r, enabled, st, Chain(open, body), close);
      FlatNothing(r, enabled, Flat(r, enabled, st, Chain(open, body)).state, Closing(t, s));
    }
  }

  lemma {:induction false} InnerIsFlat(
    w: Setting, t: Trading, r: Exchange.Rules, enabled: bool, st: Simulator.SimState, n: Nest, k: nat)
    requires Levels(w) && Nested(w, n) && ValidTrading(t) && Exchange.ValidRules(r)
    requires Position.ValidState(st.ledger.pos)
    ensures RunInnerSteps(w, t, r, enabled, st, n, k) == Flat(r, enabled, st, InnerEvents(w, t, n, k))
    decreases |w.cals| - n.step.level, 0, Len(n) - k
  {
    hide RunStep, StepEvents, Flat, Feed, Chain, After, Enters, InForce, Levels;
    FlatNothing(r, enabled, st, []);
    if !Ends(w, n, k) {
      var s := InnerStep(w, n, k);
      if Enters(w, n, k) {
        var first := RunStep(w, t, r, enabled, st, s);
        StepIsFlat(w, t, r, enabled, st, s);
        InnerIsFlat(w, t, r, enabled, first.state, n, k + 1);
        FlatChain(r, enabled, st, StepEvents(w, t, s), InnerEvents(w, t, n, k + 1));
      } else {
        InnerIsFlat(w, t, r, enabled, st, n, k + 1);
      }
    }
  }

  /** The same for a whole run. */
  lemma {:induction false} RunIsFlat(
    w: Setting, t: Trading, r: Exchange.Rules, enabled: bool, st: Simulator.SimState, i: nat, hi: nat)
    requires Levels(w) && hi < |w.cals[0].points| && ValidTrading(t) && Exchange.ValidRules(r)
    requires Position.ValidState(st.ledger.pos)
    ensures RunOuterSteps(w, t, r, enabled, st, i, hi) == Flat(r, enabled, st, OuterEvents(w, t, i, hi))
    decreases hi + 1 - i
  {
    hide RunStep, StepEvents, Flat, Feed, Chain, After, ValidTrading;
    FlatNothing(r, enabled, st, []);
    if i <= hi {
      var s := OuterStep(w, i);
      assert Stands(w, s);
      var first := RunStep(w, t, r, enabled, st, s);
      StepIsFlat(w, t, r, enabled, st, s);
      RunIsFlat(w, t, r, enabled, first.state, i + 1, hi);
      FlatChain(r, enabled, st, StepEvents(w, t, s), OuterEvents(w, t, i + 1, hi));
    }
  }

  // ----- the orders of a run -----

  function OrdersIn(events: seq<Simulator.Event>): seq<Simulator.Event> {
    if events == [] then [] else (if events[0].Submit? then [events[0]] else []) + OrdersIn(events[1..])
  }

  lemma {:induction false} OrdersAppend(a: seq<Simulator.Event>, b: seq<Simulator.Event>)
    ensures OrdersIn(a + b) == OrdersIn(a) + OrdersIn(b)
    decreases |a|
  {
    if a == [] {
      assert a + b == b;
    } else {
      assert (a + b)[0] == a[0] && (a + b)[1..] == a[1..] + b;
      OrdersAppend(a[1..], b);
    }
  }

  /** The orders of the atomic steps that a run comes to, up to the first one that has to raise. */
  function OrdersOf(w: Setting, t: Trading, visits: seq<Step>): seq<Simulator.Event>
    requires w.cals != []
  {
    if visits == [] || visits[0].decision.range.ByIndex? then []
    else Submits(w, t, visits[0]) + OrdersOf(w, t, visits[1..])
  }

  lemma {:induction false} SomeIndexRangeFirst(a: seq<Step>)
    requires a != []
    ensures SomeIndexRange(a) <==> a[0].decision.range.ByIndex? || SomeIndexRange(a[1..])
  {
    if SomeIndexRange(a) && !a[0].decision.range.ByIndex? {
      var j :| 0 <= j < |a| && a[j].decision.range.ByIndex?;
      assert a[1..][j - 1] == a[j];
    }
    if SomeIndexRange(a[1..]) {
      var j :| 0 <= j < |a[1..]| && a[1..][j].decision.range.ByIndex?;
      assert a[j + 1] == a[1..][j];
    }
  }

  lemma {:induction false} OrdersOfAppend(w: Setting, t: Trading, a: seq<Step>, b: seq<Step>)
    requires w.cals != []
    ensures OrdersOf(w, t, a + b) ==
            if SomeIndexRange(a) then OrdersOf(w, t, a) else OrdersOf(w, t, a) + OrdersOf(w, t, b)
    decreases |a|
  {
    if a == [] {
      assert a + b == b;
    } else {
      assert (a + b)[0] == a[0] && (a + b)[1..] == a[1..] + b;
      SomeIndexRangeFirst(a);
      hide Submits, SomeIndexRange;
      OrdersOfAppend(w, t, a[1..], b);
    }
  }

  /** The error that an outcome is, if any. */
  function ErrorOf(o: Result<seq<nat>, RunError>): Option<RunError> {
    if o.Err? then Some(o.error) else None
  }

  /** The stream holds the orders of the steps come to, and ends in the error of their outcome. */
  predicate Matches(w: Setting, t: Trading, stream: Stream, trace: Trace)
    requires w.cals != []
  {
    && OrdersIn(stream.events) == OrdersOf(w, t, trace.visits)
    && stream.error == ErrorOf(Outcome(trace))
  }

  lemma {:induction false} MatchesChain(w: Setting, t: Trading, a: Stream, b: Stream, x: Trace, y: Trace)
    requires w.cals != [] && Matches(w, t, a, x) && Matches(w, t, b, y)
    ensures Matches(w, t, Chain(a, b), Join(x, y))
  {
    hide IndicesOf;
    OutcomeOfJoin(x, y);
    OrdersAppend(a.events, b.events);
    OrdersOfAppend(w, t, x.visits, y.visits);
  }

  lemma {:induction false} NoOrders(w: Setting, t: Trading, events: seq<Simulator.Event>)
    requires w.cals != [] && OrdersIn(events) == []
    ensures Matches(w, t, Stream(events, None), Trace([], true))
  {
    OutcomeOfJoin(Trace([], true), Trace([], true));
  }

  lemma {:induction false} AllOrders(events: seq<Simulator.Event>)
    requires forall i :: 0 <= i < |events| ==> events[i].Submit?
    ensures OrdersIn(events) == events
  {
    if events != [] {
      AllOrders(events[1..]);
      assert events == [events[0]] + events[1..];
    }
  }

  lemma {:induction false} AtomicMatches(w: Setting, t: Trading, s: Step)
    requires w.cals != []
    ensures !s.decision.range.ByIndex? ==> Matches(w, t, Stream(Submits(w, t, s), None), Trace([s], true))
    ensures s.decision.range.ByIndex? ==> Matches(w, t, Stream([], Some(AtomicRange)), Trace([s], true))
    ensures Matches(w, t, Stream([], Some(BeyondCalendar)), Trace([], false))
  {
    AllOrders(Submits(w, t, s));
    assert [s][1..] == [] && [s][0] == s;
    assert Submits(w, t, s) + [] == Submits(w, t, s);
    assert SomeIndexRange([s]) <==> [s][0].decision.range.ByIndex?;
  }

  lemma {:induction false} JoinNothing(x: Trace)
    ensures Join(Join(Trace([], true), x), Trace([], true)) == x
  {
    assert [] + x.visits == x.visits && x.visits + [] == x.visits;
  }

  /** The orders among the events of a step are those of the atomic steps it comes to, in order; and the
      events end in an error exactly when the step raises it. */
  lemma {:induction false} StepMatches(w: Setting, t: Trading, s: Step)
    requires Levels(w) && Stands(w, s) && ValidTrading(t)
    ensures Matches(w, t, StepEvents(w, t, s), Visits(w, s))
    decreases |w.cals| - s.level, 1, 0
  {
    var atomic := s.level == |w.cals| - 1;
    AtomicMatches(w, t, s);
    if !(atomic && s.decision.range.ByIndex?) {
      var body := if atomic then Stream(Submits(w, t, s), None)
                  else if NestOf(w, s).Err? then Stream([], Some(BeyondCalendar))
                  else InnerEvents(w, t, NestOf(w, s).value, 0);
      if !atomic && NestOf(w, s).Ok? {
        InnerMatches(w, t, NestOf(w, s).value, 0);
      }
      assert Matches(w, t, body, Visits(w, s));
      assert OrdersIn(Opening(t, s)) == [] && OrdersIn(Closing(t, s)) == [] by {
        StepEndsAreNoOrders(t, s);
      }
      hide Matches;
      var open, close, none := Stream(Opening(t, s), None), Stream(Closing(t, s), None), Trace([], true);
      NoOrders(w, t, Opening(t, s));
      NoOrders(w, t, Closing(t, s));
      MatchesChain(w, t, open, body, none, Visits(w, s));
      MatchesChain(w, t, Chain(open, body), close, Join(none, Visits(w, s)), none);
      JoinNothing(Visits(w, s));
    }
  }

  lemma {:induction false} StepEndsAreNoOrders(t: Trading, s: Step)
    ensures OrdersIn(Opening(t, s)) == [] && OrdersIn(Closing(t, s)) == []
  {
    var close := Closing(t, s);
    assert close[1..] == [] || (close[1..][0].SettleEnd? && close[1..][1..] == []);
  }

  lemma {:induction false} InnerMatches(w: Setting, t: Trading, n: Nest, k: nat)
    requires Levels(w) && Nested(w, n) && ValidTrading(t)
    ensures Matches(w, t, InnerEvents(w, t, n, k), InnerVisits(w, n, k))
    decreases |w.cals| - n.step.level, 0, Len(n) - k
  {
    if Ends(w, n, k) {
      NoOrders(w, t, []);
    } else {
      var s := InnerStep(w, n, k);
      hide Matches, StepEvents, Visits, Chain, Join, Enters, InForce, Levels;
      InnerMatches(w, t, n, k + 1);
      if Enters(w, n, k) {
        StepMatches(w, t, s);
        MatchesChain(w, t, StepEvents(w, t, s), InnerEvents(w, t, n, k + 1), Visits(w, s), InnerVisits(w, n, k + 1));
      }
    }
  }

  /** The same for a whole run. */
  lemma {:induction false} RunMatches(w: Setting, t: Trading, i: nat, hi: nat)
    requires Levels(w) && hi < |w.cals[0].points| && ValidTrading(t)
    ensures Matches(w, t, OuterEvents(w, t, i, hi), OuterVisits(w, i, hi))
    decreases hi + 1 - i
  {
    hide Matches, StepEvents, Visits, Chain, Join, ValidTrading, Regular;
    if i > hi {
      NoOrders(w, t, []);
    } else {
      var s := OuterStep(w, i);
      assert Stands(w, s);
      RunMatches(w, t, i + 1, hi);
      StepMatches(w, t, s);
      MatchesChain(w, t, StepEvents(w, t, s), OuterEvents(w, t, i + 1, hi), Visits(w, s), OuterVisits(w, i + 1, hi));
    }
  }

  /** The events of a run end in an error exactly when the run, by its calendars and ranges, raises it. */
  lemma {:induction false} RunErrorMatches(w: Setting, t: Trading, i: nat, hi: nat)
    requires Levels(w) && hi < |w.cals[0].points| && ValidTrading(t)
    ensures OuterEvents(w, t, i, hi).error == ErrorOf(OuterSteps(w, i, hi))
  {
    hide OuterEvents, OuterVisits, OuterSteps, Outcome, OrdersIn, OrdersOf;
    RunMatches(w, t, i, hi);
    RunOutcome(w, i, hi);
  }

  // ----- what ends each step -----

  /** The steps of all levels that a step finishes: the inner ones, each after its own, and last itself. */
  ghost function Finished(w: Setting, s: Step): seq<Step>
    requires Levels(w) && Stands(w, s)
    decreases |w.cals| - s.level, 1, 0
  {
    (if s.level == |w.cals| - 1 || NestOf(w, s).Err? then [] else FinishedInside(w, NestOf(w, s).value, 0)) + [s]
  }

  ghost function FinishedInside(w: Setting, n: Nest, k: nat): seq<Step>
    requires Levels(w) && Nested(w, n)
    decreases |w.cals| - n.step.level, 0, Len(n) - k
  {
    if Ends(w, n, k) then []
    else (if Enters(w, n, k) then Finished(w, InnerStep(w, n, k)) else []) + FinishedInside(w, n, k + 1)
  }

  ghost function FinishedOuter(w: Setting, i: nat, hi: nat): seq<Step>
    requires Levels(w) && hi < |w.cals[0].points|
    decreases hi + 1 - i
  {
    if i > hi then [] else Finished(w, OuterStep(w, i)) + FinishedOuter(w, i + 1, hi)
  }

  function ClosesIn(events: seq<Simulator.Event>): seq<map<string, real>> {
    if events == [] then [] else (if events[0].BarEnd? then [events[0].closes] else []) + ClosesIn(events[1..])
  }

  /** The settlements opened less those ended. */
  function Pending(events: seq<Simulator.Event>): int {
    if events == [] then 0
    else (if events[0].SettleOpen? then 1 else if events[0].SettleEnd? then -1 else 0) + Pending(events[1..])
  }

  lemma {:induction false} EndsAppend(a: seq<Simulator.Event>, b: seq<Simulator.Event>)
    ensures ClosesIn(a + b) == ClosesIn(a) + ClosesIn(b) && Pending(a + b) == Pending(a) + Pending(b)
    decreases |a|
  {
    if a == [] {
      assert a + b == b;
    } else {
      assert (a + b)[0] == a[0] && (a + b)[1..] == a[1..] + b;
      EndsAppend(a[1..], b);
    }
  }

  /** The holdings take their closes at the end of each of the steps, and no settlement is left open. */
  predicate EndedBy(t: Trading, stream: Stream, steps: seq<Step>) {
    stream.error == None ==>
      && ClosesIn(stream.events) == seq(|steps|, i requires 0 <= i < |steps| => t.closes(steps[i]))
      && Pending(stream.events) == 0
  }

  lemma {:induction false} EndedByBoth(t: Trading, a: Stream, b: Stream, x: seq<Step>, y: seq<Step>)
    requires EndedBy(t, a, x) && EndedBy(t, b, y)
    ensures EndedBy(t, Chain(a, b), x + y)
  {
    EndsAppend(a.events, b.events);
    var closes := seq(|x + y|, i requires 0 <= i < |x + y| => t.closes((x + y)[i]));
    assert closes == seq(|x|, i requires 0 <= i < |x| => t.closes(x[i]))
                     + seq(|y|, i requires 0 <= i < |y| => t.closes(y[i]));
  }

  lemma {:induction false} OrdersEndNothing(t: Trading, events: seq<Simulator.Event>)
    requires forall i :: 0 <= i < |events| ==> events[i].Submit?
    ensures EndedBy(t, Stream(events, None), [])
  {
    if events != [] {
      OrdersEndNothing(t, events[1..]);
    }
  }

  /** The opening and the closing of a step, around a body. */
  lemma {:induction false} StepEndsBoth(t: Trading, s: Step, body: Stream, inside: seq<Step>)
    requires EndedBy(t, body, inside)
    ensures EndedBy(t, Chain(Chain(Stream(Opening(t, s), None), body), Stream(Closing(t, s), None)), inside + [s])
  {
    var open, close := Opening(t, s), Closing(t, s);
    EndsAppend(open, body.events);
    EndsAppend(open + body.events, close);
    assert open != [] ==> open[1..] == [];
    assert close[1..] == [] || (close[1..][0].SettleEnd? && close[1..][1..] == []);
    assert ClosesIn(open) == [] && ClosesIn(close) == [t.closes(s)] && Pending(open) + Pending(close) == 0;
    hide ClosesIn, Pending;
    var steps := inside + [s];
    assert seq(|steps|, i requires 0 <= i < |steps| => t.closes(steps[i])) ==
           seq(|inside|, i requires 0 <= i < |inside| => t.closes(inside[i])) + [t.closes(s)];
  }

  /** A step that raises nothing lets the holdings take their closes once at the end of each step it finishes,
      of any level, and ends every settlement it opens. */
  lemma {:induction false} StepEnds(w: Setting, t: Trading, s: Step)
    requires Levels(w) && Stands(w, s) && ValidTrading(t)
    ensures EndedBy(t, StepEvents(w, t, s), Finished(w, s))
    decreases |w.cals| - s.level, 1, 0
  {
    var atomic := s.level == |w.cals| - 1;
    hide EndedBy, Opening, Closing, Chain;
    if atomic {
      OrdersEndNothing(t, Submits(w, t, s));
      StepEndsBoth(t, s, Stream(Submits(w, t, s), None), []);
      RaisedEndsNothing(t, Stream([], Some(AtomicRange)), [s]);
      assert [] + [s] == [s];
    } else if NestOf(w, s).Err? {
      RaisedEndsNothing(t, Stream([], Some(BeyondCalendar)), []);
      StepEndsBoth(t, s, Stream([], Some(BeyondCalendar)), []);
    } else {
      var n := NestOf(w, s).value;
      InnerStepsEnd(w, t, n, 0);
      StepEndsBoth(t, s, InnerEvents(w, t, n, 0), FinishedInside(w, n, 0));
    }
  }

  lemma {:induction false} RaisedEndsNothing(t: Trading, stream: Stream, steps: seq<Step>)
    requires stream.error.Some?
    ensures EndedBy(t, stream, steps)
  {
  }

  lemma {:induction false} InnerStepsEnd(w: Setting, t: Trading, n: Nest, k: nat)
    requires Levels(w) && Nested(w, n) && ValidTrading(t)
    ensures EndedBy(t, InnerEvents(w, t, n, k), FinishedInside(w, n, k))
    decreases |w.cals| - n.step.level, 0, Len(n) - k
  {
    if Ends(w, n, k) {
      OrdersEndNothing(t, []);
    } else {
      var s := InnerStep(w, n, k);
      hide EndedBy, StepEvents, Finished, Chain, Enters, InForce, Levels;
      InnerStepsEnd(w, t, n, k + 1);
      if Enters(w, n, k) {
        StepEnds(w, t, s);
        EndedByBoth(t, StepEvents(w, t, s), InnerEvents(w, t, n, k + 1), Finished(w, s), FinishedInside(w, n, k + 1));
      } else {
        assert [] + FinishedInside(w, n, k + 1) == FinishedInside(w, n, k + 1);
      }
    }
  }

  /** The same for a backtest. */
  lemma {:induction false} RunEnds(w: Setting, t: Trading, i: nat, hi: nat)
    requires Levels(w) && hi < |w.cals[0].points| && ValidTrading(t)
    ensures EndedBy(t, OuterEvents(w, t, i, hi), FinishedOuter(w, i, hi))
    decreases hi + 1 - i
  {
    hide EndedBy, StepEvents, Finished, Chain, ValidTrading, Regular;
    if i > hi {
      OrdersEndNothing(t, []);
    } else {
      var s := OuterStep(w, i);
      assert Stands(w, s);
      RunEnds(w, t, i + 1, hi);
      StepEnds(w, t, s);
      EndedByBoth(t, StepEvents(w, t, s), OuterEvents(w, t, i + 1, hi), Finished(w, s), FinishedOuter(w, i + 1, hi));
    }
  }

  // ----- what carries over to nested runs -----

  /** Cash safety: over a backtest of any depth, overshoots do not add up. */
  lemma {:induction false} NestedCashSafety(
    w: Setting, t: Trading, r: Exchange.Rules, enabled: bool, st: Simulator.SimState, i: nat, hi: nat, bound: real)
    requires Levels(w) && hi < |w.cals[0].points| && ValidTrading(t) && Exchange.ValidRules(r)
    requires Position.ValidState(st.ledger.pos) && st.ledger.pos.settle == Position.NoSettle
    requires Account.NoShorts(st.ledger.pos)
    requires Simulator.Bounded(r, enabled, st, OuterEvents(w, t, i, hi).events, bound)
    ensures RunOuterSteps(w, t, r, enabled, st, i, hi).state.ledger.pos.cash >=
            MinReal(st.ledger.pos.cash, -bound)
  {
    hide RunOuterSteps, OuterEvents, Simulator.Simulate, Simulator.Bounded, Account.NoShorts;
    RunIsFlat(w, t, r, enabled, st, i, hi);
    Simulator.CashSafety(r, enabled, st, OuterEvents(w, t, i, hi).events, bound);
  }

  /** Conservation: over a backtest of any depth that raises nothing, the value of the shared position changes
      by return less cost, plus price moves and what sell tolerances cut or drop. */
  lemma {:induction false} NestedConserves(
    w: Setting, t: Trading, r: Exchange.Rules, st: Simulator.SimState, i: nat, hi: nat)
    requires Levels(w) && hi < |w.cals[0].points| && ValidTrading(t) && Exchange.ValidRules(r)
    requires Position.ValidState(st.ledger.pos) && RunOuterSteps(w, t, r, true, st, i, hi).error == None
    ensures var l, l' := st.ledger, RunOuterSteps(w, t, r, true, st, i, hi).state.ledger;
            var ops := Simulator.RunOps(r, true, st, OuterEvents(w, t, i, hi).events);
            Position.Value(l'.pos) - Position.Value(l.pos) ==
            (l'.rtn - l.rtn) - (l'.cost - l.cost) + Account.MarkGains(l, ops) + Account.Drifts(l, ops)
  {
    hide RunOuterSteps, OuterEvents, Simulator.Simulate, Simulator.RunOps, Position.Value, Account.MarkGains,
      Account.Drifts;
    RunIsFlat(w, t, r, true, st, i, hi);
    Simulator.SimulationConserves(r, st, OuterEvents(w, t, i, hi).events);
  }

  lemma {:induction false} BoundInside(cals: seq<TradingCalendar>, d: nat, b: nat, j: nat)
    requires AllRegular(cals) && d < |cals| && b <= |cals[d].points| && j <= |cals[d].points|
    ensures Bound(cals, d, b, j) <= |cals[|cals| - 1].points|
    decreases |cals| - d
  {
    hide Cut;
    if d + 1 < |cals| {
      BoundInside(cals, d + 1, Cut(cals[d], cals[d + 1], b, b), Cut(cals[d], cals[d + 1], b, j));
    }
  }

  lemma {:induction false} DaysOfOrders(from: Option<int>, events: seq<Simulator.Event>)
    ensures Simulator.DaysAscend(from, events) <==> Simulator.DaysAscend(from, OrdersIn(events))
    decreases |events|
  {
    if events != [] {
      var e, rest := events[0], OrdersIn(events[1..]);
      assert events == [e] + events[1..];
      assert OrdersIn(events) == if e.Submit? then [e] + rest else rest;
      DaysStep(from, e, events[1..]);
      DaysStep(from, e, rest);
      hide OrdersIn, Simulator.DaysAscend;
      DaysOfOrders(if e.Submit? then Some(e.day) else from, events[1..]);
    }
  }

  lemma {:induction false} DaysStep(from: Option<int>, e: Simulator.Event, rest: seq<Simulator.Event>)
    ensures Simulator.DaysAscend(from, [e] + rest) <==>
            if e.Submit? then NotAfter(from, e.day) && Simulator.DaysAscend(Some(e.day), rest)
            else Simulator.DaysAscend(from, rest)
  {
    assert ([e] + rest)[1..] == rest;
  }

  /** A day that is not after any order's. */
  predicate NotAfter(from: Option<int>, day: int) {
    from == None || from.value <= day
  }

  lemma {:induction false} EarlierStart(from: Option<int>, day: int, events: seq<Simulator.Event>)
    requires NotAfter(from, day) && Simulator.DaysAscend(Some(day), events)
    ensures Simulator.DaysAscend(from, events)
    decreases |events|
  {
    if events != [] && !events[0].Submit? {
      EarlierStart(from, day, events[1..]);
    }
  }

  lemma {:induction false} SameDayFirst(
    from: Option<int>, day: int, block: seq<Simulator.Event>, rest: seq<Simulator.Event>)
    requires NotAfter(from, day) && Simulator.DaysAscend(Some(day), rest)
    requires forall i :: 0 <= i < |block| ==> block[i].Submit? && block[i].day == day
    ensures Simulator.DaysAscend(from, block + rest)
    decreases |block|
  {
    if block == [] {
      assert block + rest == rest;
      EarlierStart(from, day, rest);
    } else {
      assert (block + rest)[0] == block[0] && (block + rest)[1..] == block[1..] + rest;
      SameDayFirst(Some(day), day, block[1..], rest);
    }
  }

  /** Two atomic steps trade on the same day exactly when their instants lie in one day of 86400 seconds. */
  lemma {:induction false} DaysExactly(w: Setting, a: Step, b: Step)
    requires w.cals != []
    requires a.at < |w.cals[|w.cals| - 1].points| && b.at < |w.cals[|w.cals| - 1].points|
    ensures var points := w.cals[|w.cals| - 1].points;
            DayOf(w, a) == DayOf(w, b) <==> exists day :: InDay(day, points[a.at]) && InDay(day, points[b.at])
  {
    hide Midnight, InDay;
    var points := w.cals[|w.cals| - 1].points;
    SameDayExactly(points[a.at], points[b.at]);
  }

  lemma {:induction false} LaterDays(w: Setting, a: Step, b: Step)
    requires Levels(w) && a.at <= b.at < |w.cals[|w.cals| - 1].points|
    ensures DayOf(w, a) <= DayOf(w, b)
  {
    var points := w.cals[|w.cals| - 1].points;
    assert Regular(w.cals[|w.cals| - 1]);
    assert points[a.at] <= points[b.at];
    MidnightMonotone(points[a.at], points[b.at]);
  }

  lemma {:induction false} MidnightMonotone(t: int, u: int)
    requires t <= u
    ensures Midnight(t) <= Midnight(u)
  {
    MidnightExact(t, Midnight(t));
    MidnightExact(u, Midnight(u));
    hide Midnight;
    LaterDayStart(Midnight(t), Midnight(u), t, u);
  }

  lemma {:induction false} LaterDayStart(d: int, e: int, t: int, u: int)
    requires InDay(d, t) && InDay(e, u) && t <= u
    ensures d <= e
  {
    var length := 86400 * SECOND;
    assert d == d / length * length && e == e / length * length;
  }

  /** Steps in calendar order trade on days that do not go back. */
  lemma {:induction false} VisitDays(
    w: Setting, t: Trading, from: Option<int>, visits: seq<Step>, lo: nat, to: nat)
    requires Levels(w) && Ascending(visits, lo, to) && to <= |w.cals[|w.cals| - 1].points|
    requires visits != [] ==> NotAfter(from, DayOf(w, visits[0]))
    ensures Simulator.DaysAscend(from, OrdersOf(w, t, visits))
    decreases |visits|
  {
    if visits != [] && !visits[0].decision.range.ByIndex? {
      var rest, day := visits[1..], DayOf(w, visits[0]);
      assert forall j :: 0 <= j < |rest| ==> rest[j] == visits[j + 1];
      if rest != [] {
        LaterDays(w, visits[0], rest[0]);
      }
      hide DayOf;
      VisitDays(w, t, Some(day), rest, lo, to);
      SameDayFirst(from, day, Submits(w, t, visits[0]), OrdersOf(w, t, rest));
    }
  }

  /** Every order on the stock that day is capped, and its rounding slack is within the given one. */
  ghost predicate OrdersCapped(
    w: Setting, t: Trading, r: Exchange.Rules, stock: string, day: int, cap: real, slack: real)
    requires w.cals != [] && ValidTrading(t)
  {
    forall s, i :: 0 <= i < |t.asks(s)| && t.asks(s)[i].stock == stock && DayOf(w, s) == day ==>
                     Simulator.CappedBy(t.asks(s)[i], cap) && Exchange.Slack(r, t.asks(s)[i]) <= slack
  }

  ghost predicate CappedEvent(
    r: Exchange.Rules, e: Simulator.Event, stock: string, day: int, cap: real, slack: real)
  {
    e.Submit? && e.ask.stock == stock && e.day == day && Exchange.ValidAsk(e.ask) ==>
      Simulator.CappedBy(e.ask, cap) && Exchange.Slack(r, e.ask) <= slack
  }

  lemma {:induction false} CappedOrders(
    w: Setting, t: Trading, r: Exchange.Rules, visits: seq<Step>, stock: string, day: int, cap: real, slack: real)
    requires w.cals != [] && ValidTrading(t) && OrdersCapped(w, t, r, stock, day, cap, slack)
    ensures forall e :: e in OrdersOf(w, t, visits) ==> CappedEvent(r, e, stock, day, cap, slack)
    decreases |visits|
  {
    if visits != [] && !visits[0].decision.range.ByIndex? {
      CappedOrders(w, t, r, visits[1..], stock, day, cap, slack);
      var block := Submits(w, t, visits[0]);
      forall e | e in block
        ensures CappedEvent(r, e, stock, day, cap, slack)
      {
        var i :| 0 <= i < |block| && block[i] == e;
        assert e == Simulator.Submit(DayOf(w, visits[0]), t.asks(visits[0])[i]);
      }
    }
  }

  lemma {:induction false} OrdersAmong(events: seq<Simulator.Event>)
    ensures forall e :: e in events && e.Submit? ==> e in OrdersIn(events)
    decreases |events|
  {
    if events != [] {
      OrdersAmong(events[1..]);
      assert events == [events[0]] + events[1..];
    }
  }

  /** The daily cap: over an aligned backtest of any depth, what is dealt of a stock on one day exceeds the
      day's cumulative limit by at most one rounding step, whatever ranges and revisions its levels have. */
  lemma {:induction false} NestedDailyCap(
    w: Setting, t: Trading, r: Exchange.Rules, enabled: bool, st: Simulator.SimState, lo: nat, hi: nat,
    stock: string, day: int, cap: real, slack: real)
    requires Levels(w) && lo <= hi < |w.cals[0].points| && ValidTrading(t) && Exchange.ValidRules(r)
    requires AlignedOn(w.cals, 0, lo, hi + 1)
    requires Position.ValidState(st.ledger.pos) && Account.NoShorts(st.ledger.pos)
    requires TradesFrom(w, st.day, lo, hi) && (st.day == None || st.day.value < day)
    requires Simulator.ZeroStaysZero(r) && OrdersCapped(w, t, r, stock, day, cap, slack) && cap >= 0.0 && slack >= 0.0
    ensures Simulator.TotalOn(RunOuterSteps(w, t, r, enabled, st, lo, hi).fills, stock, day) <= cap + slack
  {
    hide *;
    var events := OuterEvents(w, t, lo, hi).events;
    RunIsFlat(w, t, r, enabled, st, lo, hi);
    EventDays(w, t, st.day, lo, hi);
    EventsCapped(w, t, r, lo, hi, stock, day, cap, slack);
    Simulator.DailyCap(r, enabled, st, events, stock, day, cap, slack);
    FlatFills(r, enabled, st, OuterEvents(w, t, lo, hi));
  }

  lemma {:induction false} FlatFills(r: Exchange.Rules, enabled: bool, st: Simulator.SimState, s: Stream)
    requires Exchange.ValidRules(r) && Simulator.ValidEvents(s.events) && Position.ValidState(st.ledger.pos)
    ensures Flat(r, enabled, st, s).fills == Simulator.Simulate(r, enabled, st, s.events).fills
    ensures Flat(r, enabled, st, s).state == Simulator.Simulate(r, enabled, st, s.events).state
  {
  }

  /** The run comes to no atomic step before the day. */
  predicate TradesFrom(w: Setting, from: Option<int>, lo: nat, hi: nat)
    requires Levels(w) && hi < |w.cals[0].points|
  {
    var visits := OuterVisits(w, lo, hi).visits;
    visits != [] ==> NotAfter(from, DayOf(w, visits[0]))
  }

  /** An aligned run trades on days that do not go back. */
  lemma {:induction false} EventDays(w: Setting, t: Trading, from: Option<int>, lo: nat, hi: nat)
    requires Levels(w) && lo <= hi < |w.cals[0].points| && ValidTrading(t) && AlignedOn(w.cals, 0, lo, hi + 1)
    requires TradesFrom(w, from, lo, hi)
    ensures Simulator.DaysAscend(from, OuterEvents(w, t, lo, hi).events)
  {
    var visits := OuterVisits(w, lo, hi).visits;
    hide OuterEvents, OuterVisits, AlignedOn, Ascending, Bound, OrdersIn, OrdersOf, Simulator.DaysAscend;
    RunMatches(w, t, lo, hi);
    RunAscends(w, lo, lo, hi);
    BoundInside(w.cals, 0, hi + 1, hi + 1);
    VisitDays(w, t, from, visits, Bound(w.cals, 0, hi + 1, lo), Bound(w.cals, 0, hi + 1, hi + 1));
    DaysOfOrders(from, OuterEvents(w, t, lo, hi).events);
  }

  lemma {:induction false} EventsCapped(
    w: Setting, t: Trading, r: Exchange.Rules, i: nat, hi: nat, stock: string, day: int, cap: real, slack: real)
    requires Levels(w) && hi < |w.cals[0].points| && ValidTrading(t)
    requires OrdersCapped(w, t, r, stock, day, cap, slack)
    ensures Simulator.DayCapped(r, OuterEvents(w, t, i, hi).events, stock, day, cap, slack)
  {
    var events := OuterEvents(w, t, i, hi).events;
    hide OuterEvents, OuterVisits, OrdersIn, OrdersOf, OrdersCapped, Simulator.CappedBy, Exchange.Slack, Outcome;
    RunMatches(w, t, i, hi);
    CappedOrders(w, t, r, OuterVisits(w, i, hi).visits, stock, day, cap, slack);
    OrdersAmong(events);
    assert forall i :: 0 <= i < |events| ==> events[i] in events;
  }
}
