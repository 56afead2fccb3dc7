/** Nested execution over trading calendars (quant_master/backtest/executor.py, utils.py and
    decision.py). Level 0 is the outermost executor; the last level is the atomic one. */
module NestedExecution {
  import opened Common
  import opened Search
  import opened Calendars

  const DAY: int := 86_400_000_000_000

  /** The start of the day of an instant. */
  function Midnight(t: int): int {
    t - t % DAY
  }

  /** The instant is the first one of a day, whose length is given in seconds. */
  predicate DayStart(day: int) {
    day % (86400 * SECOND) == 0
  }

  /** The instant lies in the day that starts then. */
  predicate InDay(day: int, t: int) {
    DayStart(day) && day <= t < day + 86400 * SECOND
  }

  /** The start of the day of an instant is the one start of a day that the instant lies in. */
  lemma {:induction false} MidnightExact(t: int, day: int)
    ensures Midnight(t) == day <==> InDay(day, t)
  {
    var m := t % DAY;
    assert t == t / DAY * DAY + m && (t / DAY * DAY) % DAY == 0;
    if InDay(day, t) {
      assert day == day / DAY * DAY;
      assert day / DAY == t / DAY;
    }
  }

  /** Two instants have the same start of the day exactly when they lie in one day. */
  lemma {:induction false} SameDayExactly(t: int, u: int)
    ensures Midnight(t) == Midnight(u) <==> exists day :: InDay(day, t) && InDay(day, u)
  {
    MidnightExact(t, Midnight(t));
    MidnightExact(u, Midnight(u));
    forall day
      ensures InDay(day, t) <==> day == Midnight(t)
      ensures InDay(day, u) <==> day == Midnight(u)
    {
      MidnightExact(t, day);
      MidnightExact(u, day);
    }
  }

  /** The trade range of a decision: none, a pair of inner step indices, or two times of the day. */
  datatype Range = NoRange | ByIndex(lo: int, hi: int) | ByTime(start: int, end: int)

  datatype Decision = Decision(range: Range, empty: bool)

  /** The strategies' behaviour. A step is named by the calendar indices of the steps it lies in, the
      outermost first, and its own: the decision made for it, and the decision that replaces the one in
      force when its inner step k is about to run, if the strategy revises it. */
  datatype Plan = Plan(made: seq<nat> -> Decision, revised: (seq<nat>, nat) -> Option<Decision>)

  datatype Options = Options(skipEmptyDecision: bool, alignRangeLimit: bool)

  /** What a run depends on: the calendar and the options of each level, and the strategies. */
  datatype Setting = Setting(cals: seq<TradingCalendar>, plan: Plan, opts: nat -> Options)

  datatype RunError =
    | BeyondCalendar   // a step starts after the last point of the inner calendar
    | AtomicRange      // an atomic step was given an index range

  /** A step of a run: its level, its name, the decision it is run with, and its calendar index. */
  datatype Step = Step(level: nat, name: seq<nat>, decision: Decision, at: nat)

  /** A step in progress: the start of its time, and its range in the inner calendar. */
  datatype Nest = Nest(step: Step, start: int, lo: nat, hi: nat)

  function Len(n: Nest): int {
    n.hi - n.lo + 1
  }

  predicate AllRegular(cals: seq<TradingCalendar>) {
    forall d :: 0 <= d < |cals| ==> Regular(cals[d])
  }

  predicate Levels(w: Setting) {
    w.cals != [] && AllRegular(w.cals)
  }

  predicate Stands(w: Setting, s: Step) {
    s.level < |w.cals| && s.at < |w.cals[s.level].points|
  }

  predicate Nested(w: Setting, n: Nest) {
    n.step.level + 1 < |w.cals| && n.hi < |w.cals[n.step.level + 1].points|
  }

  // ----- decisions -----

  /** The decision in force at inner step k: the last revision, or the one the step is run with. */
  function InForce(w: Setting, n: Nest, k: nat): Decision {
    match w.plan.revised(n.step.name, k)
    case Some(d) => d
    case None => if k == 0 then n.step.decision else InForce(w, n, k - 1)
  }

  /** That is the latest of the revisions up to inner step k; without any, the decision given. */
  lemma {:induction false} InForceExactly(w: Setting, n: Nest, k: nat, j: nat)
    requires j <= k && forall m: nat :: j < m <= k ==> w.plan.revised(n.step.name, m) == None
    ensures w.plan.revised(n.step.name, j).Some? ==> InForce(w, n, k) == w.plan.revised(n.step.name, j).value
    ensures j == 0 && w.plan.revised(n.step.name, j) == None ==> InForce(w, n, k) == n.step.decision
    decreases k
  {
    if j < k {
      InForceExactly(w, n, k - 1, j);
    }
  }

  /** The limit that a trade range sets on the inner steps. */
  function LimitOf(range: Range, inner: TradingCalendar, n: Nest): Option<(int, int)>
    requires StrictlySorted(inner.points)
  {
    match range
    case NoRange => None
    case ByIndex(lo, hi) => Some((lo, hi))
    case ByTime(start, end) =>
      Some(RangeIdx(inner, n.lo, Len(n), Midnight(n.start) + start, Midnight(n.start) + end))
  }

  /** The limit after get_range_limit has clipped it to the number of inner steps. */
  function ClipLimit(limit: (int, int), totalStep: int): (int, int) {
    if limit.0 < 0 || limit.1 >= totalStep then (MaxInt(0, limit.0), MinInt(totalStep - 1, limit.1)) else limit
  }

  /** Clipping never changes which of the inner steps are inside the limit. */
  lemma {:induction false} ClipKeepsSteps(limit: (int, int), totalStep: int, k: int)
    requires 0 <= k < totalStep
    ensures ClipLimit(limit, totalStep).0 <= k <= ClipLimit(limit, totalStep).1 <==> limit.0 <= k <= limit.1
  {
  }

  /** The first and the last inner step that a decision lets run. */
  function StartEndIdx(decision: Decision, inner: TradingCalendar, n: Nest): (int, int)
    requires StrictlySorted(inner.points)
  {
    match LimitOf(decision.range, inner, n)
    case Some(limit) => ClipLimit(limit, Len(n))
    case None => (0, Len(n) - 1)
  }

  /** Whether an inner step is executed rather than just stepped over. */
  predicate Executes(w: Setting, decision: Decision, n: Nest, k: int)
    requires Levels(w) && Nested(w, n)
  {
    var (lo, hi) := StartEndIdx(decision, w.cals[n.step.level + 1], n);
    !w.opts(n.step.level).alignRangeLimit || lo <= k <= hi
  }

  /** No inner step from k on runs: the calendar is finished, or an empty decision ends the step. */
  predicate Ends(w: Setting, n: Nest, k: nat) {
    k >= Len(n) || (InForce(w, n, k).empty && w.opts(n.step.level).skipEmptyDecision)
  }

  /** Inner step k is executed, if the run gets there. */
  predicate Enters(w: Setting, n: Nest, k: nat)
    requires Levels(w) && Nested(w, n)
  {
    Executes(w, InForce(w, n, k), n, k)
  }

  /** An inner decision without a range takes the one of the outer decision in force. */
  function ModInner(outer: Decision, inner: Decision): Decision {
    if inner.range == NoRange then inner.(range := outer.range) else inner
  }

  /** Inner step k, with the decision it is run with. */
  function InnerStep(w: Setting, n: Nest, k: nat): Step {
    var name := n.step.name + [n.lo + k];
    Step(n.step.level + 1, name, ModInner(InForce(w, n, k), w.plan.made(name)), n.lo + k)
  }

  function OuterStep(w: Setting, i: nat): Step {
    Step(0, [i], w.plan.made([i]), i)
  }

  // ----- what a run executes -----

  function NestOf(w: Setting, s: Step): Result<Nest, LocateError>
    requires Levels(w) && Stands(w, s) && s.level + 1 < |w.cals|
    ensures NestOf(w, s).Ok? ==> Nested(w, NestOf(w, s).value) && NestOf(w, s).value.step == s
  {
    var outer, inner := w.cals[s.level], w.cals[s.level + 1];
    LocateExact(inner.points, StepStart(outer, s.at), StepEnd(outer, s.at));
    match InnerRange(outer, inner, s.at)
    case Err(e) => Err(e)
    case Ok((lo, hi)) => Ok(Nest(s, StepStart(outer, s.at), lo, hi))
  }

  /** The atomic-level calendar indices executed by one step, or what it raises. */
  function Leaves(w: Setting, s: Step): Result<seq<nat>, RunError>
    requires Levels(w) && Stands(w, s)
    decreases |w.cals| - s.level, 1, 0
  {
    if s.level == |w.cals| - 1 then
      if s.decision.range.ByIndex? then Err(AtomicRange) else Ok([s.at])
    else
      match NestOf(w, s)
      case Err(_) => Err(BeyondCalendar)
      case Ok(n) => InnerSteps(w, n, 0)
  }

  /** The same for the inner steps of a step from step k on. */
  function InnerSteps(w: Setting, n: Nest, k: nat): Result<seq<nat>, RunError>
    requires Levels(w) && Nested(w, n)
    decreases |w.cals| - n.step.level, 0, Len(n) - k
  {
    if Ends(w, n, k) then Ok([])
    else if Enters(w, n, k) then Then(Leaves(w, InnerStep(w, n, k)), InnerSteps(w, n, k + 1))
    else InnerSteps(w, n, k + 1)
  }

  /** The steps of the outermost calendar from index i to index hi. */
  function OuterSteps(w: Setting, i: nat, hi: nat): Result<seq<nat>, RunError>
    requires Levels(w) && hi < |w.cals[0].points|
    decreases hi + 1 - i
  {
    if i > hi then Ok([]) else Then(Leaves(w, OuterStep(w, i)), OuterSteps(w, i + 1, hi))
  }

  /** What was executed first, followed by the rest of the run, up to the first error. */
  function Then(first: Result<seq<nat>, RunError>, rest: Result<seq<nat>, RunError>): Result<seq<nat>, RunError> {
    match (first, rest)
    case (Err(e), _) => Err(e)
    case (Ok(_), Err(e)) => Err(e)
    case (Ok(a), Ok(b)) => Ok(a + b)
  }

  lemma {:induction false} ThenLaws(a: seq<nat>, b: Result<seq<nat>, RunError>, rest: Result<seq<nat>, RunError>)
    ensures Then(Ok([]), rest) == rest
    ensures Then(Ok(a), Then(b, rest)) == if b.Ok? then Then(Ok(a + b.value), rest) else b
    ensures Then(Ok(a), Ok([])) == Ok(a)
  {
    if rest.Ok? {
      assert [] + rest.value == rest.value;
      if b.Ok? {
        assert a + (b.value + rest.value) == a + b.value + rest.value;
      }
    }
    assert a + [] == a;
  }

  /** A step's whole answer, when these atomic steps are done and inner step k comes next. */
  function Remaining(w: Setting, n: Nest, k: nat, done: seq<nat>): Result<seq<nat>, RunError>
    requires Levels(w) && Nested(w, n)
  {
    Then(Ok(done), InnerSteps(w, n, k))
  }

  /** How the answer depends on the next inner step. */
  lemma {:induction false} Advance(w: Setting, n: Nest, k: nat, done: seq<nat>)
    requires Levels(w) && Nested(w, n)
    ensures Remaining(w, n, 0, []) == InnerSteps(w, n, 0)
    ensures Remaining(w, n, k, done) ==
            if Ends(w, n, k) then Ok(done)
            else if Enters(w, n, k) then
              match Leaves(w, InnerStep(w, n, k))
              case Err(e) => Err(e)
              case Ok(steps) => Remaining(w, n, k + 1, done + steps)
            else Remaining(w, n, k + 1, done)
  {
    hide Leaves, Then, Enters, InForce, ModInner, Levels;
    ThenLaws([], Ok([]), InnerSteps(w, n, 0));
    ThenLaws(done, Ok([]), Ok([]));
    if !Ends(w, n, k) && Enters(w, n, k) {
      ThenLaws(done, Leaves(w, InnerStep(w, n, k)), InnerSteps(w, n, k + 1));
    }
  }

  // ----- the machine -----

  /** The trade calendar of one level. */
  class TradeCalendarManager {
    const calendar: TradingCalendar
    var startIndex: nat
    var endIndex: nat
    var tradeLen: int
    var tradeStep: nat

    constructor (calendar: TradingCalendar)
      ensures this.calendar == calendar && tradeStep == 0 && tradeLen == 0
    {
      this.calendar := calendar;
      startIndex, endIndex, tradeLen, tradeStep := 0, 0, 0, 0;
    }

    predicate Finished()
      reads `tradeStep, `tradeLen
    {
      tradeStep >= tradeLen
    }

    /** Locate a time range; raises for a start beyond the calendar. */
    method Reset(start: int, end: int) returns (ok: bool)
      requires Regular(calendar)
      modifies this
      ensures ok <==> LocateIndex(calendar.points, start, end).Ok?
      ensures ok ==> LocateIndex(calendar.points, start, end) == Ok((startIndex, endIndex))
                     && endIndex < |calendar.points| && tradeLen == endIndex - startIndex + 1 && tradeStep == 0
    {
      LocateExact(calendar.points, start, end);
      var located := LocateIndex(calendar.points, start, end);
      if located.Err? {
        return false;
      }
      startIndex, endIndex := located.value.0, located.value.1;
      tradeLen := endIndex - startIndex + 1;
      tradeStep := 0;
      ok := true;
    }

    /** One step forward; raises when the calendar is finished. */
    method Step() returns (ok: bool)
      modifies `tradeStep
      ensures ok <==> !old(Finished())
      ensures tradeStep == if ok then old(tradeStep) + 1 else old(tradeStep)
    {
      ok := !Finished();
      if ok {
        tradeStep := tradeStep + 1;
      }
    }

    /** The closed time range of the current step; StepTimesExact says what the ranges of the steps cover. */
    method GetStepTime() returns (start: int, end: int)
      requires startIndex + tradeStep < |calendar.points|
      ensures start == StepStart(calendar, startIndex + tradeStep) && end == StepEnd(calendar, startIndex + tradeStep)
    {
      start, end := StepStart(calendar, startIndex + tradeStep), StepEnd(calendar, startIndex + tradeStep);
    }
  }

  predicate Distinct(levels: seq<TradeCalendarManager>) {
    forall a, b :: 0 <= a < b < |levels| ==> levels[a] != levels[b]
  }

  /** The managers are those of the setting's levels. */
  predicate Managed(levels: seq<TradeCalendarManager>, w: Setting) {
    Distinct(levels) && |levels| == |w.cals| && forall d :: 0 <= d < |levels| ==> levels[d].calendar == w.cals[d]
  }

  /** A calendar stands at calendar index i and is not finished. */
  predicate AtIndex(m: TradeCalendarManager, i: nat)
    reads m
  {
    && !m.Finished() && i == m.startIndex + m.tradeStep
    && m.tradeLen == m.endIndex - m.startIndex + 1 && m.endIndex < |m.calendar.points|
  }

  /** Execute the current step of a level with its decision: run the inner level to its end, then step
      once. The answer lists the executed atomic steps. */
  method CollectData(levels: seq<TradeCalendarManager>, w: Setting, s: Step)
    returns (result: Result<seq<nat>, RunError>)
    requires Levels(w) && Managed(levels, w) && Stands(w, s) && AtIndex(levels[s.level], s.at)
    modifies levels[s.level..]
    ensures result == Leaves(w, s)
    ensures result.Ok? ==>
              var m := levels[s.level];
              && m.tradeStep == old(m.tradeStep) + 1 && m.tradeLen == old(m.tradeLen)
              && m.startIndex == old(m.startIndex) && m.endIndex == old(m.endIndex)
    decreases |levels| - s.level, 1, 0
  {
    hide LocateIndex, InnerSteps;
    var atomic := s.level == |levels| - 1;
    if atomic && s.decision.range.ByIndex? {
      return Err(AtomicRange);
    }
    var outer := levels[s.level];
    if atomic {
      result := Ok([outer.startIndex + outer.tradeStep]);
    } else {
      var inner := levels[s.level + 1];
      var start, end := outer.GetStepTime();
      var ok := inner.Reset(start, end);
      if !ok {
        return Err(BeyondCalendar);
      }
      var decisions, indicators;
      result, decisions, indicators := RunInner(levels, w, Nest(s, start, inner.startIndex, inner.endIndex));
      if result.Err? {
        return;
      }
    }
    var stepped := outer.Step();
    assert stepped;
  }

  /** The decision with which inner step k goes on: the strategy's revision, if it makes one. */
  method UpdateTradeDecision(w: Setting, n: Nest, k: nat, current: Decision) returns (updated: Decision)
    requires current == if k == 0 then n.step.decision else InForce(w, n, k - 1)
    ensures updated == InForce(w, n, k)
  {
    var revision := w.plan.revised(n.step.name, k);
    updated := if revision.Some? then revision.value else current;
  }

  /** The loop of the nested executor over the inner calendar, counting the inner decisions and the
      indicators collected. */
  method RunInner(levels: seq<TradeCalendarManager>, w: Setting, n: Nest)
    returns (result: Result<seq<nat>, RunError>, decisions: nat, indicators: nat)
    requires Levels(w) && Managed(levels, w) && Nested(w, n) && Stands(w, n.step)
    requires AtIndex(levels[n.step.level], n.step.at)
    requires var m := levels[n.step.level + 1];
             m.startIndex == n.lo && m.endIndex == n.hi && m.tradeLen == Len(n) && m.tradeStep == 0
    modifies levels[n.step.level + 1..]
    ensures result == InnerSteps(w, n, 0)
    ensures decisions == indicators
    decreases |levels| - n.step.level, 0, 0
  {
    var inner := levels[n.step.level + 1];
    assert inner.calendar == w.cals[n.step.level + 1] && levels[n.step.level] !in levels[n.step.level + 1..];
    hide Leaves, Remaining, InnerSteps, Executes, InForce, Distinct, Levels, ModInner;
    var current := n.step.decision;
    var executed: seq<nat> := [];
    decisions, indicators := 0, 0;
    Advance(w, n, 0, []);
    while !inner.Finished()
      invariant inner.startIndex == n.lo && inner.endIndex == n.hi && inner.tradeLen == Len(n)
      invariant inner.tradeStep <= MaxInt(0, inner.tradeLen)
      invariant decisions == indicators
      invariant current == if inner.tradeStep == 0 then n.step.decision else InForce(w, n, inner.tradeStep - 1)
      invariant InnerSteps(w, n, 0) == Remaining(w, n, inner.tradeStep, executed)
      decreases inner.tradeLen - inner.tradeStep
    {
      Advance(w, n, inner.tradeStep, executed);
      current := UpdateTradeDecision(w, n, inner.tradeStep, current);
      if current.empty && w.opts(n.step.level).skipEmptyDecision {
        break;
      }
      if Executes(w, current, n, inner.tradeStep) {
        var at := inner.startIndex + inner.tradeStep;
        var name := n.step.name + [at];
        var innerDecision := ModInner(current, w.plan.made(name));
        decisions := decisions + 1;
        var s := Step(n.step.level + 1, name, innerDecision, at);
        assert s == InnerStep(w, n, inner.tradeStep);
        var res := CollectData(levels, w, s);
        if res.Err? {
          return Err(res.error), 0, 0;
        }
        executed := executed + res.value;
        indicators := indicators + 1;
      } else {
        var stepped := inner.Step();
        assert stepped;
      }
    }
    Advance(w, n, inner.tradeStep, executed);
    result := Ok(executed);
  }

  /** The outermost loop of a backtest. */
  method CollectDataLoop(levels: seq<TradeCalendarManager>, w: Setting, start: int, end: int)
    returns (result: Result<seq<nat>, RunError>)
    requires Levels(w) && Managed(levels, w)
    modifies levels
    ensures match LocateIndex(w.cals[0].points, start, end)
            case Err(_) => result == Err(BeyondCalendar)
            case Ok((lo, hi)) => hi < |w.cals[0].points| && result == OuterSteps(w, lo, hi)
  {
    LocateExact(w.cals[0].points, start, end);
    var ok := levels[0].Reset(start, end);
    if !ok {
      return Err(BeyondCalendar);
    }
    result := RunOuter(levels, w);
  }

  method RunOuter(levels: seq<TradeCalendarManager>, w: Setting) returns (result: Result<seq<nat>, RunError>)
    requires Levels(w) && Managed(levels, w)
    requires levels[0].tradeStep == 0 && levels[0].tradeLen == levels[0].endIndex - levels[0].startIndex + 1
    requires levels[0].endIndex < |w.cals[0].points|
    modifies levels
    ensures result == OuterSteps(w, old(levels[0].startIndex), old(levels[0].endIndex))
  {
    hide Leaves, Then, Distinct;
    assert levels[0..] == levels;
    var m := levels[0];
    ghost var lo, hi := m.startIndex, m.endIndex;
    var executed: seq<nat> := [];
    ThenLaws([], Ok([]), OuterSteps(w, lo, hi));
    while !m.Finished()
      invariant m.startIndex == lo && m.endIndex == hi && m.tradeLen + lo == hi + 1
      invariant m.tradeStep <= MaxInt(0, m.tradeLen)
      invariant OuterSteps(w, lo, hi) == Then(Ok(executed), OuterSteps(w, lo + m.tradeStep, hi))
      decreases m.tradeLen - m.tradeStep
    {
      var i := m.startIndex + m.tradeStep;
      var res := CollectData(levels, w, OuterStep(w, i));
      ThenLaws(executed, res, OuterSteps(w, i + 1, hi));
      if res.Err? {
        return Err(res.error);
      }
      executed := executed + res.value;
    }
    ThenLaws(executed, Ok([]), Ok([]));
    result := Ok(executed);
  }

  // ----- range limits -----

  /** The inner steps a step enters, from step k on. */
  function Entered(w: Setting, n: Nest, k: nat): seq<nat>
    requires Levels(w) && Nested(w, n)
    decreases Len(n) - k
  {
    if Ends(w, n, k) then []
    else if Enters(w, n, k) then [k] + Entered(w, n, k + 1)
    else Entered(w, n, k + 1)
  }

  predicate InnerStepsOf(n: Nest, ks: seq<nat>) {
    forall k :: k in ks ==> k < Len(n)
  }

  /** The atomic steps of the given inner steps, one after the other. */
  function LeavesOf(w: Setting, n: Nest, ks: seq<nat>): Result<seq<nat>, RunError>
    requires Levels(w) && Nested(w, n) && InnerStepsOf(n, ks)
    decreases |ks|
  {
    if ks == [] then Ok([])
    else
      assert ks[0] in ks && forall k :: k in ks[1..] ==> k in ks;
      Then(Leaves(w, InnerStep(w, n, ks[0])), LeavesOf(w, n, ks[1..]))
  }

  lemma {:induction false} EnteredInRange(w: Setting, n: Nest, k: nat)
    requires Levels(w) && Nested(w, n)
    ensures forall x :: x in Entered(w, n, k) ==> k <= x < Len(n)
    decreases Len(n) - k
  {
    hide Enters, InForce, Levels;
    if !Ends(w, n, k) {
      EnteredInRange(w, n, k + 1);
    }
  }

  /** A step executes exactly the inner steps it enters, in order, up to the first error. */
  lemma {:induction false} InnerStepsAreEntered(w: Setting, n: Nest, k: nat)
    requires Levels(w) && Nested(w, n)
    ensures InnerStepsOf(n, Entered(w, n, k))
    ensures InnerSteps(w, n, k) == LeavesOf(w, n, Entered(w, n, k))
    decreases Len(n) - k
  {
    hide Leaves, Enters, InForce, Levels, Then, InnerStep;
    EnteredInRange(w, n, k);
    if !Ends(w, n, k) {
      InnerStepsAreEntered(w, n, k + 1);
      var ks, rest := Entered(w, n, k), Entered(w, n, k + 1);
      if Enters(w, n, k) {
        assert ks[0] == k && ks[1..] == rest;
      }
    }
  }

  /** Inner step k lies inside the limit of the decision in force, as the decision states it. */
  predicate InsideLimit(w: Setting, n: Nest, k: nat)
    requires Levels(w) && Nested(w, n)
  {
    var limit := LimitOf(InForce(w, n, k).range, w.cals[n.step.level + 1], n);
    limit.Some? ==> limit.value.0 <= k <= limit.value.1
  }

  lemma {:induction false} EntersInside(w: Setting, n: Nest, k: nat)
    requires Levels(w) && Nested(w, n) && k < Len(n) && w.opts(n.step.level).alignRangeLimit
    ensures Enters(w, n, k) <==> InsideLimit(w, n, k)
  {
    hide LimitOf, InForce, ClipLimit;
    var limit := LimitOf(InForce(w, n, k).range, w.cals[n.step.level + 1], n);
    if limit.Some? {
      ClipKeepsSteps(limit.value, Len(n), k);
    }
  }

  /** With the limit aligned and no empty decision, the entered inner steps are exactly those inside
      the range limit in force at the step, in increasing order. */
  lemma {:induction false} EnteredAreInsideLimit(w: Setting, n: Nest, k: nat)
    requires Levels(w) && Nested(w, n) && w.opts(n.step.level).alignRangeLimit
    requires forall x: nat :: k <= x < Len(n) ==> !Ends(w, n, x)
    ensures var ks := Entered(w, n, k);
            && (forall a, b :: 0 <= a < b < |ks| ==> ks[a] < ks[b])
            && forall x: nat :: x in ks <==> k <= x < Len(n) && InsideLimit(w, n, x)
    decreases Len(n) - k
  {
    if k < Len(n) {
      EntersInside(w, n, k);
      EnteredInRange(w, n, k + 1);
      var ks, rest := Entered(w, n, k), Entered(w, n, k + 1);
      assert ks == if Enters(w, n, k) then [k] + rest else rest;
      assert forall a :: 0 <= a < |rest| ==> rest[a] in rest;
      hide Levels, InForce, Enters, InsideLimit, Ends;
      EnteredAreInsideLimit(w, n, k + 1);
    }
  }

  /** Under a range of times in force throughout, a step enters exactly the inner steps that meet those
      times on the day the step starts, if and only if some inner step meets them. */
  lemma {:induction false} EnteredByTime(w: Setting, n: Nest, day: int, start: int, end: int)
    requires Levels(w) && Nested(w, n) && w.opts(n.step.level).alignRangeLimit && n.lo <= n.hi
    requires InDay(day, n.start) && start <= end
    requires forall k: nat :: k < Len(n) ==> InForce(w, n, k).range == ByTime(start, end) && !Ends(w, n, k)
    ensures var c, from, to := w.cals[n.step.level + 1], day + start, day + end;
            (forall k: nat :: k in Entered(w, n, 0) <==> k < Len(n) && Meets(c, n.lo, k, from, to))
            <==> exists k: nat :: k < Len(n) && Meets(c, n.lo, k, from, to)
  {
    MidnightExact(n.start, day);
    hide Midnight, InDay;
    EnteredAreInsideLimit(w, n, 0);
    InsideByTime(w, n, Entered(w, n, 0), start, end);
  }

  lemma {:induction false} InsideByTime(w: Setting, n: Nest, ks: seq<nat>, start: int, end: int)
    requires Levels(w) && Nested(w, n) && start <= end && n.lo <= n.hi
    requires forall k: nat :: k < Len(n) ==> InForce(w, n, k).range == ByTime(start, end)
    requires forall k: nat :: k in ks <==> k < Len(n) && InsideLimit(w, n, k)
    ensures var c, from, to := w.cals[n.step.level + 1], Midnight(n.start) + start, Midnight(n.start) + end;
            (forall k: nat :: k in ks <==> k < Len(n) && Meets(c, n.lo, k, from, to))
            <==> exists k: nat :: k < Len(n) && Meets(c, n.lo, k, from, to)
  {
    var c, from, to := w.cals[n.step.level + 1], Midnight(n.start) + start, Midnight(n.start) + end;
    hide InForce, RangeIdx, Midnight, InsideLimit, Meets, Ends;
    var (lo, hi) := RangeIdx(c, n.lo, Len(n), from, to);
    forall k: nat | k < Len(n)
      ensures InsideLimit(w, n, k) <==> lo <= k <= hi
    {
      LimitIsRangeIdx(w, n, k, start, end);
    }
    RangeIdxExact(c, n.lo, Len(n), from, to);
    hide *;
    SpanIsMet(c, n.lo, Len(n), lo, hi, from, to, ks);
  }

  lemma {:induction false} LimitIsRangeIdx(w: Setting, n: Nest, k: nat, start: int, end: int)
    requires Levels(w) && Nested(w, n) && InForce(w, n, k).range == ByTime(start, end)
    ensures var (lo, hi) := RangeIdx(w.cals[n.step.level + 1], n.lo, Len(n), Midnight(n.start) + start,
                                     Midnight(n.start) + end);
            InsideLimit(w, n, k) <==> lo <= k <= hi
  {
    hide InForce, RangeIdx, Midnight;
  }

  lemma {:induction false} SpanIsMet(
    c: TradingCalendar, first: nat, len: int, lo: int, hi: int, from: int, to: int, ks: seq<nat>)
    requires forall k: nat :: k in ks <==> k < len && lo <= k <= hi
    requires (forall i {:trigger Meets(c, first, i, from, to)} :: 0 <= i < len ==>
                (lo <= i <= hi <==> Meets(c, first, i, from, to)))
             <==> exists i :: 0 <= i < len && Meets(c, first, i, from, to)
    ensures (forall k: nat :: k in ks <==> k < len && Meets(c, first, k, from, to))
            <==> exists k: nat :: k < len && Meets(c, first, k, from, to)
  {
    hide Meets;
    if i :| 0 <= i < len && Meets(c, first, i, from, to) {
      var k: nat := i;
      assert k < len && Meets(c, first, k, from, to);
      assert forall k: nat :: k < len ==> (lo <= k <= hi <==> Meets(c, first, k, from, to));
    } else {
      var i :| 0 <= i < len && (lo <= i <= hi) != Meets(c, first, i, from, to);
      var k: nat := i;
      assert k in ks;
    }
  }

  // ----- when a run raises -----

  /** What a run comes to if atomic steps accept any decision, and whether it comes to its end. */
  datatype Trace = Trace(visits: seq<Step>, complete: bool)

  function Join(first: Trace, rest: Trace): Trace {
    if first.complete then Trace(first.visits + rest.visits, rest.complete) else first
  }

  /** The atomic steps that a step comes to, each with the decision it would be run with. */
  function Visits(w: Setting, s: Step): Trace
    requires Levels(w) && Stands(w, s)
    decreases |w.cals| - s.level, 1, 0
  {
    if s.level == |w.cals| - 1 then Trace([s], true)
    else
      match NestOf(w, s)
      case Err(_) => Trace([], false)
      case Ok(n) => InnerVisits(w, n, 0)
  }

  function InnerVisits(w: Setting, n: Nest, k: nat): Trace
    requires Levels(w) && Nested(w, n)
    decreases |w.cals| - n.step.level, 0, Len(n) - k
  {
    if Ends(w, n, k) then Trace([], true)
    else if Enters(w, n, k) then Join(Visits(w, InnerStep(w, n, k)), InnerVisits(w, n, k + 1))
    else InnerVisits(w, n, k + 1)
  }

  function OuterVisits(w: Setting, i: nat, hi: nat): Trace
    requires Levels(w) && hi < |w.cals[0].points|
    decreases hi + 1 - i
  {
    if i > hi then Trace([], true) else Join(Visits(w, OuterStep(w, i)), OuterVisits(w, i + 1, hi))
  }

  predicate SomeIndexRange(visits: seq<Step>) {
    exists j :: 0 <= j < |visits| && visits[j].decision.range.ByIndex?
  }

  function IndicesOf(visits: seq<Step>): (r: seq<nat>)
    ensures |r| == |visits| && forall j :: 0 <= j < |r| ==> r[j] == visits[j].at
  {
    seq(|visits|, j requires 0 <= j < |visits| => visits[j].at)
  }

  function Outcome(t: Trace): Result<seq<nat>, RunError> {
    if SomeIndexRange(t.visits) then Err(AtomicRange)
    else if !t.complete then Err(BeyondCalendar)
    else Ok(IndicesOf(t.visits))
  }

  lemma {:induction false} OutcomeOfJoin(a: Trace, b: Trace)
    ensures Outcome(Join(a, b)) == Then(Outcome(a), Outcome(b))
    ensures Outcome(Trace([], true)) == Ok([])
  {
    var v, w := a.visits, b.visits;
    if SomeIndexRange(v) {
      var j :| 0 <= j < |v| && v[j].decision.range.ByIndex?;
      assert (v + w)[j].decision.range.ByIndex?;
    } else if SomeIndexRange(w) {
      var j :| 0 <= j < |w| && w[j].decision.range.ByIndex?;
      assert (v + w)[|v| + j].decision.range.ByIndex?;
    }
    assert IndicesOf(v + w) == IndicesOf(v) + IndicesOf(w);
    assert IndicesOf([]) == [];
  }

  /** A step raises for an index range exactly when some atomic step it comes to ends up with one; if
      none does, it raises beyond a calendar exactly when it does not come to its end; otherwise it
      executes the atomic steps it comes to. */
  lemma {:induction false} StepOutcome(w: Setting, s: Step)
    requires Levels(w) && Stands(w, s)
    ensures Leaves(w, s) == Outcome(Visits(w, s))
    decreases |w.cals| - s.level, 1, 0
  {
    if s.level == |w.cals| - 1 {
      assert SomeIndexRange([s]) <==> [s][0].decision.range.ByIndex?;
      assert IndicesOf([s]) == [s.at];
    } else if NestOf(w, s).Ok? {
      InnerOutcome(w, NestOf(w, s).value, 0);
    }
  }

  lemma {:induction false} InnerOutcome(w: Setting, n: Nest, k: nat)
    requires Levels(w) && Nested(w, n)
    ensures InnerSteps(w, n, k) == Outcome(InnerVisits(w, n, k))
    decreases |w.cals| - n.step.level, 0, Len(n) - k
  {
    hide Outcome, Then, Join, Leaves, Visits, Enters, InForce, ModInner, Levels;
    OutcomeOfJoin(Trace([], true), Trace([], true));
    if !Ends(w, n, k) {
      InnerOutcome(w, n, k + 1);
      StepOutcome(w, InnerStep(w, n, k));
      OutcomeOfJoin(Visits(w, InnerStep(w, n, k)), InnerVisits(w, n, k + 1));
    }
  }

  /** The same for a whole run. */
  lemma {:induction false} RunOutcome(w: Setting, i: nat, hi: nat)
    requires Levels(w) && hi < |w.cals[0].points|
    ensures OuterSteps(w, i, hi) == Outcome(OuterVisits(w, i, hi))
    decreases hi + 1 - i
  {
    hide Outcome, Then, Join, Leaves, Visits, Regular;
    OutcomeOfJoin(Trace([], true), Trace([], true));
    if i <= hi {
      StepOutcome(w, OuterStep(w, i));
      RunOutcome(w, i + 1, hi);
      OutcomeOfJoin(Visits(w, OuterStep(w, i)), OuterVisits(w, i + 1, hi));
    }
  }

  /** No decision below the outermost one has a range of its own, and none is revised. */
  ghost predicate Passive(w: Setting) {
    && (forall name, k :: w.plan.revised(name, k) == None)
    && (forall name :: |name| > 1 ==> w.plan.made(name).range == NoRange)
  }

  predicate AllRange(visits: seq<Step>, range: Range) {
    forall j :: 0 <= j < |visits| ==> visits[j].decision.range == range
  }

  lemma {:induction false} AllRangeJoin(a: Trace, b: Trace, range: Range)
    requires AllRange(a.visits, range) && AllRange(b.visits, range)
    ensures AllRange(Join(a, b).visits, range)
  {
  }

  lemma {:induction false} NeverRevised(w: Setting, n: Nest, k: nat)
    requires Passive(w)
    ensures InForce(w, n, k) == n.step.decision
  {
    if k > 0 {
      NeverRevised(w, n, k - 1);
    }
  }

  /** Through any number of levels, a range is handed down to every atomic step that a step comes to. */
  lemma {:induction false} RangeHandedDown(w: Setting, s: Step)
    requires Levels(w) && Stands(w, s) && Passive(w) && s.name != []
    ensures AllRange(Visits(w, s).visits, s.decision.range)
    decreases |w.cals| - s.level, 1, 0
  {
    if s.level < |w.cals| - 1 && NestOf(w, s).Ok? {
      InnerRangeHandedDown(w, NestOf(w, s).value, 0);
    }
  }

  lemma {:induction false} InnerRangeHandedDown(w: Setting, n: Nest, k: nat)
    requires Levels(w) && Nested(w, n) && Passive(w) && n.step.name != []
    ensures AllRange(InnerVisits(w, n, k).visits, n.step.decision.range)
    decreases |w.cals| - n.step.level, 0, Len(n) - k
  {
    if !Ends(w, n, k) {
      NeverRevised(w, n, k);
      var s := InnerStep(w, n, k);
      assert |s.name| > 1 && s.decision.range == n.step.decision.range;
      hide InForce, Enters, Visits, Passive, InnerStep, Join, AllRange, Ends, Levels;
      InnerRangeHandedDown(w, n, k + 1);
      RangeHandedDown(w, s);
      AllRangeJoin(Visits(w, s), InnerVisits(w, n, k + 1), n.step.decision.range);
    }
  }

  /** A step with an index range, handed down because no inner decision has a range, raises exactly when
      it comes to an atomic step at all. */
  lemma {:induction false} IndexRangeRaisesExactly(w: Setting, s: Step)
    requires Levels(w) && Stands(w, s) && Passive(w) && s.name != [] && s.decision.range.ByIndex?
    ensures Leaves(w, s) == Err(AtomicRange) <==> Visits(w, s).visits != []
  {
    hide Leaves, Visits;
    StepOutcome(w, s);
    RangeHandedDown(w, s);
    var visits := Visits(w, s).visits;
    if visits != [] {
      assert visits[0].decision.range.ByIndex?;
    }
  }

  /** Inner step x, from k on, is one that a decision never revised lets run. */
  predicate LetsRun(w: Setting, n: Nest, k: nat, x: nat)
    requires Levels(w) && Nested(w, n)
  {
    k <= x < Len(n) && Executes(w, n.step.decision, n, x)
  }

  predicate SkipsAll(w: Setting, s: Step) {
    s.decision.empty && w.opts(s.level).skipEmptyDecision
  }

  lemma {:induction false} SomeVisit(w: Setting, n: Nest, k: nat)
    requires Levels(w) && Nested(w, n) && Passive(w) && n.step.level + 2 == |w.cals|
    ensures InnerVisits(w, n, k).visits != [] <==> !SkipsAll(w, n.step) && exists x :: LetsRun(w, n, k, x)
    decreases Len(n) - k
  {
    NeverRevised(w, n, k);
    hide Executes, Passive, InForce, ModInner, Levels;
    if k < Len(n) && !SkipsAll(w, n.step) {
      var next := k + 1;
      SomeVisit(w, n, next);
      if LetsRun(w, n, k, k) {
        assert Visits(w, InnerStep(w, n, k)).visits != [];
      } else {
        assert InnerVisits(w, n, k) == InnerVisits(w, n, next);
        assert forall x: nat :: LetsRun(w, n, k, x) <==> LetsRun(w, n, next, x);
      }
    }
  }

  /** Inner step x is one that the pair of the step's decision lets run. */
  predicate PairLetsRun(w: Setting, n: Nest, x: nat)
    requires n.step.decision.range.ByIndex?
  {
    var range := n.step.decision.range;
    x < Len(n) && (w.opts(n.step.level).alignRangeLimit ==> range.lo <= x <= range.hi)
  }

  /** Directly above the atomic level such a step raises exactly when its time can be located, its
      decision is not skipped as empty, and the pair lets some inner step run. */
  lemma {:induction false} IndexRangeAboveAtomic(w: Setting, s: Step)
    requires Levels(w) && Stands(w, s) && Passive(w) && s.name != [] && s.decision.range.ByIndex?
    requires s.level + 2 == |w.cals|
    ensures Leaves(w, s) == Err(AtomicRange) <==>
            && NestOf(w, s).Ok? && !SkipsAll(w, s)
            && exists x :: PairLetsRun(w, NestOf(w, s).value, x)
  {
    IndexRangeRaisesExactly(w, s);
    if NestOf(w, s).Ok? {
      var n, range := NestOf(w, s).value, s.decision.range;
      SomeVisit(w, n, 0);
      forall x: nat
        ensures LetsRun(w, n, 0, x) <==> PairLetsRun(w, n, x)
      {
        if x < Len(n) {
          ClipKeepsSteps((range.lo, range.hi), Len(n), x);
        }
      }
      hide LetsRun, PairLetsRun, Leaves, Passive, Levels;
    }
  }

  /** No decision, made or revised, has an index range. */
  ghost predicate NoIndexRanges(w: Setting) {
    && (forall name :: !w.plan.made(name).range.ByIndex?)
    && (forall name, k :: w.plan.revised(name, k).Some? ==> !w.plan.revised(name, k).value.range.ByIndex?)
  }

  lemma {:induction false} NoIndexRangeInForce(w: Setting, n: Nest, k: nat)
    requires NoIndexRanges(w) && !n.step.decision.range.ByIndex?
    ensures !InForce(w, n, k).range.ByIndex?
  {
    if k > 0 {
      NoIndexRangeInForce(w, n, k - 1);
    }
  }

  /** Ranges of times, and no ranges, never make an atomic step raise, at any depth. */
  lemma {:induction false} TimeRangesNeverRaise(w: Setting, s: Step)
    requires Levels(w) && Stands(w, s) && NoIndexRanges(w) && !s.decision.range.ByIndex?
    ensures Leaves(w, s) != Err(AtomicRange)
    decreases |w.cals| - s.level, 1, 0
  {
    if s.level < |w.cals| - 1 && NestOf(w, s).Ok? {
      InnerTimeRanges(w, NestOf(w, s).value, 0);
    }
  }

  lemma {:induction false} InnerTimeRanges(w: Setting, n: Nest, k: nat)
    requires Levels(w) && Nested(w, n) && NoIndexRanges(w) && !n.step.decision.range.ByIndex?
    ensures InnerSteps(w, n, k) != Err(AtomicRange)
    decreases |w.cals| - n.step.level, 0, Len(n) - k
  {
    if !Ends(w, n, k) {
      NoIndexRangeInForce(w, n, k);
      var s := InnerStep(w, n, k);
      assert !s.decision.range.ByIndex?;
      hide InForce, Enters, Leaves, NoIndexRanges, InnerStep, Ends, Levels;
      InnerTimeRanges(w, n, k + 1);
      TimeRangesNeverRaise(w, s);
    }
  }

  /** Every decision made for an atomic step has a range of times of its own. */
  ghost predicate OwnTimes(w: Setting) {
    forall name :: |name| == |w.cals| ==> w.plan.made(name).range.ByTime?
  }

  /** A range of its own shields an inner decision from the outer one: whatever ranges the levels above
      have, no atomic step raises then. */
  lemma {:induction false} OwnTimesShield(w: Setting, s: Step)
    requires Levels(w) && Stands(w, s) && OwnTimes(w) && s.level + 1 < |w.cals| && |s.name| == s.level + 1
    ensures Leaves(w, s) != Err(AtomicRange)
    decreases |w.cals| - s.level, 1, 0
  {
    if NestOf(w, s).Ok? {
      InnerTimesShield(w, NestOf(w, s).value, 0);
    }
  }

  lemma {:induction false} InnerTimesShield(w: Setting, n: Nest, k: nat)
    requires Levels(w) && Nested(w, n) && OwnTimes(w) && |n.step.name| == n.step.level + 1
    ensures InnerSteps(w, n, k) != Err(AtomicRange)
    decreases |w.cals| - n.step.level, 0, Len(n) - k
  {
    hide Enters, InForce, Levels;
    if !Ends(w, n, k) {
      var s := InnerStep(w, n, k);
      InnerTimesShield(w, n, k + 1);
      assert |s.name| == s.level + 1;
      if s.level + 1 < |w.cals| {
        hide OwnTimes, Leaves;
        OwnTimesShield(w, s);
      } else {
        assert w.plan.made(s.name).range.ByTime?;
      }
    }
  }

  // ----- tiling -----

  ghost predicate Unrestricted(w: Setting) {
    && (forall name :: w.plan.made(name) == Decision(NoRange, false))
    && (forall name, k :: w.plan.revised(name, k) == None)
  }

  lemma {:induction false} Unlimited(w: Setting, n: Nest, k: nat)
    requires Levels(w) && Nested(w, n) && Unrestricted(w) && n.step.decision == Decision(NoRange, false) && k < Len(n)
    ensures !Ends(w, n, k) && Enters(w, n, k) && InnerStep(w, n, k).decision == Decision(NoRange, false)
  {
    assert Passive(w);
    NeverRevised(w, n, k);
  }

  /** The inner index where outer step j begins, in a run of the steps before b; for j past the run,
      where it ends. */
  function Cut(outer: TradingCalendar, inner: TradingCalendar, b: nat, j: nat): (k: nat)
    requires Regular(outer) && Regular(inner) && b <= |outer.points|
    ensures k <= |inner.points|
  {
    if j < b then BisectLeft(inner.points, StepStart(outer, j))
    else if b == 0 then 0
    else BisectRight(inner.points, StepEnd(outer, b - 1))
  }

  /** The outer steps from a up to b can be located in the inner calendar and leave no point between
      them, and the last of them takes at least a second. */
  predicate StepsAligned(outer: TradingCalendar, inner: TradingCalendar, a: nat, b: nat)
    requires Regular(outer) && Regular(inner) && b <= |outer.points|
  {
    && (forall i :: a <= i < b ==> Located(outer, inner, i))
    && (forall i :: a <= i < b - 1 ==> NoPointInGap(outer, inner, i))
    && (a < b ==> StepStart(outer, b - 1) <= StepEnd(outer, b - 1))
  }

  /** The same on every level, for the steps that a run of the steps of level d from a up to b reaches. */
  predicate AlignedOn(cals: seq<TradingCalendar>, d: nat, a: nat, b: nat)
    requires AllRegular(cals) && d < |cals| && b <= |cals[d].points|
    decreases |cals| - d
  {
    d + 1 < |cals| && a < b ==>
      && StepsAligned(cals[d], cals[d + 1], a, b)
      && AlignedOn(cals, d + 1, Cut(cals[d], cals[d + 1], b, a), Cut(cals[d], cals[d + 1], b, b))
  }

  /** The atomic index where step j of level d begins, in a run of the steps before b. */
  function Bound(cals: seq<TradingCalendar>, d: nat, b: nat, j: nat): nat
    requires AllRegular(cals) && d < |cals| && b <= |cals[d].points|
    decreases |cals| - d
  {
    if d + 1 >= |cals| then j
    else Bound(cals, d + 1, Cut(cals[d], cals[d + 1], b, b), Cut(cals[d], cals[d + 1], b, j))
  }

  function Between(a: nat, b: nat): seq<nat> {
    if a >= b then [] else seq(b - a, i requires 0 <= i => a + i)
  }

  lemma {:induction false} StepIsCut(outer: TradingCalendar, inner: TradingCalendar, a: nat, b: nat, i: nat)
    requires Regular(outer) && Regular(inner) && a <= i < b <= |outer.points| && StepsAligned(outer, inner, a, b)
    ensures InnerRange(outer, inner, i).Ok?
    ensures InnerRange(outer, inner, i).value.0 == Cut(outer, inner, b, i)
    ensures InnerRange(outer, inner, i).value.1 + 1 == Cut(outer, inner, b, i + 1)
    ensures Cut(outer, inner, b, i) <= Cut(outer, inner, b, i + 1)
  {
    LocateByBisect(inner.points, StepStart(outer, i), StepEnd(outer, i));
    var l, r := BisectLeft(inner.points, StepStart(outer, i)), BisectRight(inner.points, StepEnd(outer, i));
    assert Located(outer, inner, i);
    assert l < |inner.points| && 0 < r;
    if i + 1 < b {
      assert Located(outer, inner, i + 1) && NoPointInGap(outer, inner, i);
      AdjacentExactly(outer, inner, i);
      LocateByBisect(inner.points, StepStart(outer, i + 1), StepEnd(outer, i + 1));
    }
    assert r < |inner.points| ==> StepEnd(outer, i) < inner.points[r];
    assert l <= r;
  }

  lemma {:induction false} CutMonotone(
    outer: TradingCalendar, inner: TradingCalendar, a: nat, b: nat, j: nat, j': nat)
    requires Regular(outer) && Regular(inner) && a <= j <= j' <= b <= |outer.points| && StepsAligned(outer, inner, a, b)
    ensures Cut(outer, inner, b, j) <= Cut(outer, inner, b, j')
    decreases j' - j
  {
    hide Cut, StepsAligned;
    if j < j' {
      StepIsCut(outer, inner, a, b, j);
      CutMonotone(outer, inner, a, b, j + 1, j');
    }
  }

  lemma {:induction false} BoundMonotone(cals: seq<TradingCalendar>, d: nat, a: nat, b: nat, j: nat, j': nat)
    requires AllRegular(cals) && d < |cals| && b <= |cals[d].points|
    requires a <= j <= j' <= b && AlignedOn(cals, d, a, b)
    ensures Bound(cals, d, b, j) <= Bound(cals, d, b, j')
    decreases |cals| - d
  {
    if d + 1 < |cals| && a < b {
      var outer, inner := cals[d], cals[d + 1];
      CutMonotone(outer, inner, a, b, a, j);
      CutMonotone(outer, inner, a, b, j, j');
      CutMonotone(outer, inner, a, b, j', b);
      BoundMonotone(cals, d + 1, Cut(outer, inner, b, a), Cut(outer, inner, b, b), Cut(outer, inner, b, j),
                    Cut(outer, inner, b, j'));
    }
  }

  lemma {:induction false} BetweenJoins(a: nat, b: nat, c: nat)
    requires a <= b <= c
    ensures Between(a, b) + Between(b, c) == Between(a, c)
    ensures Between(a, a) == []
  {
  }

  /** What a step hands to the inner level: its cuts, aligned, with the same bounds. */
  lemma {:induction false} NestIsCut(w: Setting, s: Step, a: nat, b: nat)
    requires Levels(w) && Stands(w, s) && s.level + 1 < |w.cals|
    requires a <= s.at < b <= |w.cals[s.level].points| && AlignedOn(w.cals, s.level, a, b)
    ensures NestOf(w, s).Ok?
    ensures var outer, inner, n := w.cals[s.level], w.cals[s.level + 1], NestOf(w, s).value;
            var from, to := Cut(outer, inner, b, a), Cut(outer, inner, b, b);
            && from <= n.lo <= n.hi + 1 <= to && AlignedOn(w.cals, s.level + 1, from, to)
            && Bound(w.cals, s.level, b, s.at) == Bound(w.cals, s.level + 1, to, n.lo)
            && Bound(w.cals, s.level, b, s.at + 1) == Bound(w.cals, s.level + 1, to, n.hi + 1)
  {
    var outer, inner := w.cals[s.level], w.cals[s.level + 1];
    assert StepsAligned(outer, inner, a, b);
    hide StepsAligned, Cut, Regular, LocateIndex;
    StepIsCut(outer, inner, a, b, s.at);
    CutMonotone(outer, inner, a, b, a, s.at);
    CutMonotone(outer, inner, a, b, s.at + 1, b);
  }

  /** Without limits, one step of any level executes exactly the atomic steps from its own bound up
      to the next step's bound. */
  lemma {:induction false} StepTiles(w: Setting, s: Step, a: nat, b: nat)
    requires Levels(w) && Stands(w, s) && Unrestricted(w) && s.decision == Decision(NoRange, false)
    requires a <= s.at < b <= |w.cals[s.level].points| && AlignedOn(w.cals, s.level, a, b)
    ensures Leaves(w, s) == Ok(Between(Bound(w.cals, s.level, b, s.at), Bound(w.cals, s.level, b, s.at + 1)))
    decreases |w.cals| - s.level, 1, 0
  {
    hide Unrestricted, AlignedOn, InnerSteps, Cut, NestOf;
    if s.level == |w.cals| - 1 {
      assert Between(s.at, s.at + 1) == [s.at];
    } else {
      hide Bound, Between;
      var outer, inner := w.cals[s.level], w.cals[s.level + 1];
      NestIsCut(w, s, a, b);
      var n := NestOf(w, s).value;
      InnerStepsTile(w, n, Cut(outer, inner, b, a), Cut(outer, inner, b, b), 0);
    }
  }

  lemma {:induction false} InnerStepsTile(w: Setting, n: Nest, a: nat, b: nat, k: nat)
    requires Levels(w) && Nested(w, n) && Unrestricted(w) && n.step.decision == Decision(NoRange, false)
    requires a <= n.lo && n.lo + k <= n.hi + 1 <= b <= |w.cals[n.step.level + 1].points|
    requires AlignedOn(w.cals, n.step.level + 1, a, b)
    ensures InnerSteps(w, n, k) == Ok(Between(Bound(w.cals, n.step.level + 1, b, n.lo + k),
                                              Bound(w.cals, n.step.level + 1, b, n.hi + 1)))
    decreases |w.cals| - n.step.level, 0, Len(n) - k
  {
    var d := n.step.level + 1;
    hide AlignedOn, Bound, Leaves, Between, Enters, InForce, Unrestricted;
    var from, to := Bound(w.cals, d, b, n.lo + k), Bound(w.cals, d, b, n.hi + 1);
    if k < Len(n) {
      Unlimited(w, n, k);
      hide Ends;
      var next := Bound(w.cals, d, b, n.lo + k + 1);
      StepTiles(w, InnerStep(w, n, k), a, b);
      InnerStepsTile(w, n, a, b, k + 1);
      BoundMonotone(w.cals, d, a, b, n.lo + k, n.lo + k + 1);
      BoundMonotone(w.cals, d, a, b, n.lo + k + 1, n.hi + 1);
      BetweenJoins(from, next, to);
    } else {
      BetweenJoins(to, to, to);
    }
  }

  /** Without limits, a whole run executes one contiguous range of atomic steps, each exactly once
      and in order, at any nesting depth, if the steps it reaches are aligned. */
  lemma {:induction false} RunTiles(w: Setting, lo: nat, i: nat, hi: nat)
    requires Levels(w) && Unrestricted(w) && lo <= i <= hi + 1 && hi < |w.cals[0].points|
    requires AlignedOn(w.cals, 0, lo, hi + 1)
    ensures OuterSteps(w, i, hi) == Ok(Between(Bound(w.cals, 0, hi + 1, i), Bound(w.cals, 0, hi + 1, hi + 1)))
    decreases hi + 1 - i
  {
    var b := hi + 1;
    var from, to := Bound(w.cals, 0, b, i), Bound(w.cals, 0, b, b);
    if i <= hi {
      var next, s := Bound(w.cals, 0, b, i + 1), OuterStep(w, i);
      assert s.decision == Decision(NoRange, false) && s.at == i && s.level == 0;
      assert OuterSteps(w, i, hi) == Then(Leaves(w, s), OuterSteps(w, i + 1, hi));
      hide AlignedOn, Bound, Leaves, Between, Unrestricted, OuterSteps, OuterStep, AllRegular;
      StepTiles(w, s, lo, b);
      RunTiles(w, lo, i + 1, hi);
      BoundMonotone(w.cals, 0, lo, b, i, i + 1);
      BoundMonotone(w.cals, 0, lo, b, i + 1, b);
      BetweenJoins(from, next, to);
    } else {
      BetweenJoins(to, to, to);
    }
  }

  /** The steps are in calendar order, none occurs twice, and all lie from one index up to another. */
  predicate Ascending(visits: seq<Step>, from: nat, to: nat) {
    && (forall j :: 0 <= j < |visits| ==> from <= visits[j].at < to)
    && forall i, j :: 0 <= i < j < |visits| ==> visits[i].at < visits[j].at
  }

  lemma {:induction false} AscendingJoin(a: Trace, b: Trace, from: nat, mid: nat, to: nat)
    requires from <= mid <= to && Ascending(a.visits, from, mid) && Ascending(b.visits, mid, to)
    ensures Ascending(Join(a, b).visits, from, to)
  {
  }

  /** Whatever the decisions, ranges and revisions, an aligned step comes to atomic steps between its own
      bound and the next step's bound only, each at most once and in order. */
  lemma {:induction false} StepAscends(w: Setting, s: Step, a: nat, b: nat)
    requires Levels(w) && Stands(w, s)
    requires a <= s.at < b <= |w.cals[s.level].points| && AlignedOn(w.cals, s.level, a, b)
    ensures Ascending(Visits(w, s).visits, Bound(w.cals, s.level, b, s.at), Bound(w.cals, s.level, b, s.at + 1))
    decreases |w.cals| - s.level, 1, 0
  {
    hide AlignedOn, InnerVisits, Cut, NestOf;
    if s.level < |w.cals| - 1 {
      hide Bound, Ascending;
      var outer, inner := w.cals[s.level], w.cals[s.level + 1];
      NestIsCut(w, s, a, b);
      InnerAscends(w, NestOf(w, s).value, Cut(outer, inner, b, a), Cut(outer, inner, b, b), 0);
    }
  }

  lemma {:induction false} InnerAscends(w: Setting, n: Nest, a: nat, b: nat, k: nat)
    requires Levels(w) && Nested(w, n)
    requires a <= n.lo && n.lo + k <= n.hi + 1 <= b <= |w.cals[n.step.level + 1].points|
    requires AlignedOn(w.cals, n.step.level + 1, a, b)
    ensures Ascending(InnerVisits(w, n, k).visits, Bound(w.cals, n.step.level + 1, b, n.lo + k),
                      Bound(w.cals, n.step.level + 1, b, n.hi + 1))
    decreases |w.cals| - n.step.level, 0, Len(n) - k
  {
    var d := n.step.level + 1;
    hide AlignedOn, Bound, Visits, Ascending, Enters, InForce, Join;
    var from, to := Bound(w.cals, d, b, n.lo + k), Bound(w.cals, d, b, n.hi + 1);
    NothingAscends(from, to);
    if !Ends(w, n, k) {
      var s, next := InnerStep(w, n, k), Bound(w.cals, d, b, n.lo + k + 1);
      assert s.at == n.lo + k && s.level == d;
      hide Ends, InnerStep;
      InnerAscends(w, n, a, b, k + 1);
      BoundMonotone(w.cals, d, a, b, n.lo + k, n.lo + k + 1);
      BoundMonotone(w.cals, d, a, b, n.lo + k + 1, n.hi + 1);
      StepAscends(w, s, a, b);
      AscendingJoin(Visits(w, s), InnerVisits(w, n, k + 1), from, next, to);
      WiderAscends(InnerVisits(w, n, k + 1).visits, from, next, to);
    }
  }

  lemma {:induction false} NothingAscends(from: nat, to: nat)
    ensures Ascending([], from, to)
  {
  }

  lemma {:induction false} WiderAscends(visits: seq<Step>, from: nat, mid: nat, to: nat)
    requires from <= mid && Ascending(visits, mid, to)
    ensures Ascending(visits, from, to)
  {
  }

  /** The same for a whole run. */
  lemma {:induction false} RunAscends(w: Setting, lo: nat, i: nat, hi: nat)
    requires Levels(w) && lo <= i <= hi + 1 && hi < |w.cals[0].points| && AlignedOn(w.cals, 0, lo, hi + 1)
    ensures Ascending(OuterVisits(w, i, hi).visits, Bound(w.cals, 0, hi + 1, i), Bound(w.cals, 0, hi + 1, hi + 1))
    decreases hi + 1 - i
  {
    var b := hi + 1;
    hide AlignedOn, Bound, Visits, Ascending, Join;
    var from, to := Bound(w.cals, 0, b, i), Bound(w.cals, 0, b, b);
    NothingAscends(from, to);
    if i <= hi {
      var next, s := Bound(w.cals, 0, b, i + 1), OuterStep(w, i);
      assert s.at == i && s.level == 0;
      RunAscends(w, lo, i + 1, hi);
      BoundMonotone(w.cals, 0, lo, b, i, i + 1);
      BoundMonotone(w.cals, 0, lo, b, i + 1, b);
      StepAscends(w, s, lo, b);
      AscendingJoin(Visits(w, s), OuterVisits(w, i + 1, hi), from, next, to);
    }
  }

  /** A step that ends before the first inner point runs the whole inner calendar instead of nothing. */
  lemma {:induction false} EarlyStepRunsWholeCalendar(w: Setting, i: nat)
    requires Levels(w) && |w.cals| == 2 && Unrestricted(w) && i < |w.cals[0].points|
    requires StepEnd(w.cals[0], i) < w.cals[1].points[0] && StepStart(w.cals[0], i) <= w.cals[1].points[0]
    ensures Leaves(w, OuterStep(w, i)) == Ok(Between(0, |w.cals[1].points|))
  {
    var outer, inner, s := w.cals[0], w.cals[1], OuterStep(w, i);
    LocateByBisect(inner.points, StepStart(outer, i), StepEnd(outer, i));
    assert BisectLeft(inner.points, StepStart(outer, i)) == 0 && BisectRight(inner.points, StepEnd(outer, i)) == 0;
    InnerStepsTile(w, NestOf(w, s).value, 0, |inner.points|, 0);
  }
}
