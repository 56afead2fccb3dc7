/** The multi-process readers-writer protocol of CacheUtils.reader_lock and writer_lock (Redis
    branch) in quant_master/data/cache.py, as a machine whose steps are the single Redis commands. */
module CacheLocks {
  import opened Common

  /** Where a process stands. `Read...` states are inside reader_lock, `Write...` inside writer_lock. */
  datatype Place =
    | Idle
    | ReadEnter   // waiting for the short reader lock
    | ReadCheck   // holds it, about to look at the counter
    | ReadTakeW   // first reader, waiting for the write lock
    | ReadIncr    // about to count itself
    | ReadUnlock  // about to give the short lock back
    | ReadIn      // reading the cache
    | ReadLeave   // waiting for the short lock again
    | ReadDecr    // about to uncount itself
    | ReadTest    // about to see whether it was the last one
    | ReadDelete  // last reader, about to delete the counter
    | ReadReset   // last reader, about to reset the write lock
    | ReadDone    // about to give the short lock back
    | WriteEnter  // waiting for the write lock
    | WriteIn     // writing the cache

  datatype Owner = Free | HeldByReader(reader: nat) | HeldByWriter(writer: nat)

  /** The Redis keys behind one lock name. */
  datatype Keys = Keys(rlock: Option<nat>, wlock: Owner, readers: Option<int>)

  datatype Process = Process(name: string, place: Place)

  datatype System = System(procs: seq<Process>, keys: map<string, Keys>)

  datatype Action = StartRead(name: string) | StartWrite(name: string) | Advance | Fail

  function KeysOf(s: System, name: string): Keys {
    if name in s.keys then s.keys[name] else Keys(None, Free, None)
  }

  function CountOf(k: Keys): int {
    if k.readers.None? then 0 else k.readers.value
  }

  function Move(s: System, p: nat, place: Place, k: Keys): System
    requires p < |s.procs|
  {
    System(s.procs[p := s.procs[p].(place := place)], s.keys[s.procs[p].name := k])
  }

  /** One step of process p; None when the step is not possible in this state (blocked). */
  function Next(s: System, p: nat, act: Action): Option<System> {
    if p >= |s.procs| then None
    else
      var me := s.procs[p];
      var k := KeysOf(s, me.name);
      match act
      case StartRead(name) =>
        if me.place == Idle then Some(s.(procs := s.procs[p := Process(name, ReadEnter)])) else None
      case StartWrite(name) =>
        if me.place == Idle then Some(s.(procs := s.procs[p := Process(name, WriteEnter)])) else None
      case Fail =>
        // all writers share one lock id, so a second writer is refused instead of queued
        if me.place == WriteEnter && k.wlock.HeldByWriter? then Some(Move(s, p, Idle, k)) else None
      case Advance =>
        match me.place
        case Idle => None
        case ReadEnter => if k.rlock.None? then Some(Move(s, p, ReadCheck, k.(rlock := Some(p)))) else None
        case ReadCheck => Some(Move(s, p, if CountOf(k) == 0 then ReadTakeW else ReadIncr, k))
        case ReadTakeW => if k.wlock.Free? then Some(Move(s, p, ReadIncr, k.(wlock := HeldByReader(p)))) else None
        case ReadIncr => Some(Move(s, p, ReadUnlock, k.(readers := Some(CountOf(k) + 1))))
        case ReadUnlock => if k.rlock == Some(p) then Some(Move(s, p, ReadIn, k.(rlock := None))) else None
        case ReadIn => Some(Move(s, p, ReadLeave, k))
        case ReadLeave => if k.rlock.None? then Some(Move(s, p, ReadDecr, k.(rlock := Some(p)))) else None
        case ReadDecr => Some(Move(s, p, ReadTest, k.(readers := Some(CountOf(k) - 1))))
        case ReadTest => Some(Move(s, p, if CountOf(k) == 0 then ReadDelete else ReadDone, k))
        case ReadDelete => Some(Move(s, p, ReadReset, k.(readers := None)))
        case ReadReset => Some(Move(s, p, ReadDone, k.(wlock := Free)))
        case ReadDone => if k.rlock == Some(p) then Some(Move(s, p, Idle, k.(rlock := None))) else None
        case WriteEnter => if k.wlock.Free? then Some(Move(s, p, WriteIn, k.(wlock := HeldByWriter(p)))) else None
        case WriteIn => if k.wlock.HeldByWriter? then Some(Move(s, p, Idle, k.(wlock := Free))) else None
  }

  // ----- counting -----

  /** The process has incremented the counter and not yet decremented it. */
  predicate Counted(p: Process, name: string) {
    p.name == name && p.place in {ReadUnlock, ReadIn, ReadLeave, ReadDecr}
  }

  function Readers(procs: seq<Process>, name: string): nat {
    if procs == [] then 0
    else Readers(procs[1..], name) + if Counted(procs[0], name) then 1 else 0
  }

  lemma {:induction false} ReadersUpdate(procs: seq<Process>, p: nat, x: Process, name: string)
    requires p < |procs|
    ensures Readers(procs[p := x], name) ==
            Readers(procs, name) - (if Counted(procs[p], name) then 1 else 0) + (if Counted(x, name) then 1 else 0)
  {
    if p == 0 {
      assert procs[p := x][1..] == procs[1..];
    } else {
      assert procs[p := x][1..] == procs[1..][p - 1 := x];
      ReadersUpdate(procs[1..], p - 1, x, name);
    }
  }

  lemma {:induction false} ReadersPositive(procs: seq<Process>, name: string)
    ensures Readers(procs, name) > 0 <==> exists p :: 0 <= p < |procs| && Counted(procs[p], name)
  {
    if procs != [] {
      ReadersPositive(procs[1..], name);
      if Readers(procs[1..], name) > 0 {
        var q :| 0 <= q < |procs[1..]| && Counted(procs[1..][q], name);
        assert Counted(procs[q + 1], name);
      }
      if p :| 0 <= p < |procs| && Counted(procs[p], name) {
        if p > 0 {
          assert procs[p] == procs[1..][p - 1];
        }
      }
    }
  }

  // ----- the invariant -----

  predicate HoldsShort(place: Place) {
    place in {ReadCheck, ReadTakeW, ReadIncr, ReadUnlock, ReadDecr, ReadTest, ReadDelete, ReadReset, ReadDone}
  }

  /** Places where the short lock's holder knows that readers own the write lock. */
  predicate Owning(place: Place) {
    place in {ReadIncr, ReadTest, ReadDelete, ReadReset}
  }

  ghost predicate ShortLockRight(s: System, name: string) {
    var k := KeysOf(s, name);
    && (k.rlock.Some? ==> k.rlock.value < |s.procs|
                          && s.procs[k.rlock.value].name == name && HoldsShort(s.procs[k.rlock.value].place))
    && forall p: nat :: p < |s.procs| && s.procs[p].name == name && HoldsShort(s.procs[p].place) ==> k.rlock == Some(p)
  }

  ghost predicate WriteLockRight(s: System, name: string) {
    var k := KeysOf(s, name);
    && (k.wlock.HeldByWriter? ==> k.wlock.writer < |s.procs|
                                  && s.procs[k.wlock.writer] == Process(name, WriteIn))
    && (forall p: nat :: p < |s.procs| && s.procs[p] == Process(name, WriteIn) ==> k.wlock == HeldByWriter(p))
    && (Readers(s.procs, name) > 0 ==> k.wlock.HeldByReader?)
    && (k.wlock.HeldByReader? && Readers(s.procs, name) == 0 ==>
          k.rlock.Some? && k.rlock.value < |s.procs| && Owning(s.procs[k.rlock.value].place))
  }

  ghost predicate HolderRight(s: System, name: string, p: nat)
    requires p < |s.procs|
  {
    var k := KeysOf(s, name);
    s.procs[p].name == name ==>
      && (Owning(s.procs[p].place) ==> k.wlock.HeldByReader?)
      && (s.procs[p].place in {ReadTakeW, ReadDelete, ReadReset} ==> Readers(s.procs, name) == 0)
      && (s.procs[p].place == ReadTakeW ==> !k.wlock.HeldByReader?)
  }

  ghost predicate NameInv(s: System, name: string) {
    && CountOf(KeysOf(s, name)) == Readers(s.procs, name)
    && ShortLockRight(s, name)
    && WriteLockRight(s, name)
    && forall p: nat :: p < |s.procs| ==> HolderRight(s, name, p)
  }

  ghost predicate Inv(s: System) {
    forall name :: NameInv(s, name)
  }

  lemma {:induction false} StartInv(n: nat)
    ensures Inv(Start(n))
  {
    var s := Start(n);
    forall name
      ensures NameInv(s, name)
    {
      ReadersPositive(s.procs, name);
    }
  }

  /** Two states that look the same from one lock name: same keys, and the processes that differ
      are neutral for the name in both. */
  predicate Neutral(p: Process, name: string) {
    p.name == name ==> p.place in {Idle, ReadEnter, WriteEnter}
  }

  ghost predicate SameFor(s: System, s': System, p: nat, name: string) {
    && p < |s.procs| && |s'.procs| == |s.procs|
    && KeysOf(s', name) == KeysOf(s, name)
    && Neutral(s.procs[p], name) && Neutral(s'.procs[p], name)
    && s'.procs == s.procs[p := s'.procs[p]]
  }

  lemma {:induction false} SameForKept(s: System, s': System, p: nat, name: string)
    requires SameFor(s, s', p, name) && NameInv(s, name)
    ensures NameInv(s', name)
  {
    hide ShortLockRight, WriteLockRight;
    ReadersUpdate(s.procs, p, s'.procs[p], name);
    SameForShort(s, s', p, name);
    SameForWrite(s, s', p, name);
    forall q: nat | q < |s'.procs|
      ensures HolderRight(s', name, q)
    {
      assert HolderRight(s, name, q);
    }
  }

  lemma {:induction false} SameForShort(s: System, s': System, p: nat, name: string)
    requires SameFor(s, s', p, name) && ShortLockRight(s, name)
    ensures ShortLockRight(s', name)
  {
  }

  lemma {:induction false} SameForWrite(s: System, s': System, p: nat, name: string)
    requires SameFor(s, s', p, name) && WriteLockRight(s, name) && ShortLockRight(s, name)
    requires Readers(s'.procs, name) == Readers(s.procs, name)
    ensures WriteLockRight(s', name)
  {
  }

  /** The facts about one Advance step that all places share. */
  lemma {:induction false} AdvanceShape(s: System, p: nat, s': System)
    requires Next(s, p, Advance) == Some(s')
    ensures p < |s.procs| && |s'.procs| == |s.procs| && s'.procs[p].name == s.procs[p].name
    ensures forall q: nat :: q < |s.procs| && q != p ==> s'.procs[q] == s.procs[q]
    ensures var n := s.procs[p].name;
            Readers(s'.procs, n) == Readers(s.procs, n)
              - (if Counted(s.procs[p], n) then 1 else 0) + (if Counted(s'.procs[p], n) then 1 else 0)
    ensures forall name :: name != s.procs[p].name ==> KeysOf(s', name) == KeysOf(s, name)
  {
    ReadersUpdate(s.procs, p, s'.procs[p], s.procs[p].name);
  }

  lemma {:induction false} AdvanceCount(s: System, p: nat, s': System)
    requires Next(s, p, Advance) == Some(s') && NameInv(s, s.procs[p].name)
    ensures CountOf(KeysOf(s', s.procs[p].name)) == Readers(s'.procs, s.procs[p].name)
  {
    AdvanceShape(s, p, s');
    assert HolderRight(s, s.procs[p].name, p);
  }

  lemma {:induction false} AdvanceShort(s: System, p: nat, s': System)
    requires Next(s, p, Advance) == Some(s') && NameInv(s, s.procs[p].name)
    ensures ShortLockRight(s', s.procs[p].name)
  {
    hide WriteLockRight, HolderRight;
    AdvanceShape(s, p, s');
    var name := s.procs[p].name;
    if HoldsShort(s.procs[p].place) {
      assert KeysOf(s, name).rlock == Some(p);
    }
  }

  lemma {:induction false} AdvanceWrite(s: System, p: nat, s': System)
    requires Next(s, p, Advance) == Some(s')
    requires var name := s.procs[p].name;
             && ShortLockRight(s, name) && WriteLockRight(s, name) && HolderRight(s, name, p)
             && CountOf(KeysOf(s, name)) == Readers(s.procs, name)
    ensures WriteLockRight(s', s.procs[p].name)
  {
    AdvanceShape(s, p, s');
    var name := s.procs[p].name;
    hide Readers;
    ReadersPositive(s.procs, name);
    ReadersPositive(s'.procs, name);
  }

  lemma {:induction false} AdvanceHolders(s: System, p: nat, s': System, q: nat)
    requires Next(s, p, Advance) == Some(s') && q < |s.procs|
    requires var name := s.procs[p].name;
             && ShortLockRight(s, name) && WriteLockRight(s, name)
             && HolderRight(s, name, p) && HolderRight(s, name, q)
             && CountOf(KeysOf(s, name)) == Readers(s.procs, name)
    ensures q < |s'.procs| && HolderRight(s', s.procs[p].name, q)
  {
    AdvanceShape(s, p, s');
  }

  /** Starting or giving up an operation, and steps under another name, are neutral for a name. */
  lemma {:induction false} StepIsNeutral(s: System, p: nat, act: Action, s': System, name: string)
    requires Next(s, p, act) == Some(s') && (act != Advance || s.procs[p].name != name)
    ensures SameFor(s, s', p, name)
  {
  }

  lemma {:induction false} StepKeepsName(s: System, p: nat, act: Action, s': System, name: string)
    requires NameInv(s, name) && Next(s, p, act) == Some(s')
    ensures NameInv(s', name)
  {
    hide ShortLockRight, WriteLockRight, HolderRight, SameFor;
    if act != Advance || s.procs[p].name != name {
      StepIsNeutral(s, p, act, s', name);
      SameForKept(s, s', p, name);
    } else {
      AdvanceCount(s, p, s');
      AdvanceShort(s, p, s');
      AdvanceWrite(s, p, s');
      assert |s'.procs| == |s.procs|;
      forall q: nat | q < |s'.procs|
        ensures HolderRight(s', name, q)
      {
        AdvanceHolders(s, p, s', q);
      }
    }
  }

  /** Every step of every process keeps the invariant. */
  lemma {:induction false} StepKeepsInv(s: System, p: nat, act: Action)
    requires Inv(s) && Next(s, p, act).Some?
    ensures Inv(Next(s, p, act).value)
  {
    var s' := Next(s, p, act).value;
    forall name
      ensures NameInv(s', name)
    {
      assert NameInv(s, name);
      StepKeepsName(s, p, act, s', name);
    }
  }

  // ----- runs -----

  /** The state after a schedule of steps; a blocked step leaves the state as it is. */
  function Run(s: System, schedule: seq<(nat, Action)>): System
    decreases |schedule|
  {
    if schedule == [] then s
    else
      var (p, act) := schedule[0];
      var next := Next(s, p, act);
      Run(if next.Some? then next.value else s, schedule[1..])
  }

  function Start(n: nat): System {
    System(seq(n, _ => Process("", Idle)), map[])
  }

  lemma {:induction false} RunKeepsInv(s: System, schedule: seq<(nat, Action)>)
    requires Inv(s)
    ensures Inv(Run(s, schedule))
    decreases |schedule|
  {
    if schedule != [] {
      var (p, act) := schedule[0];
      if Next(s, p, act).Some? {
        StepKeepsInv(s, p, act);
        RunKeepsInv(Next(s, p, act).value, schedule[1..]);
      } else {
        RunKeepsInv(s, schedule[1..]);
      }
    }
  }

  /** Readers-writer exclusion per lock name, for any number of processes and any schedule: while
      a process writes, no other process reads or writes under that name. */
  lemma {:induction false} Exclusion(n: nat, schedule: seq<(nat, Action)>, w: nat, q: nat)
    requires w < |Run(Start(n), schedule).procs| && q < |Run(Start(n), schedule).procs| && w != q
    requires Run(Start(n), schedule).procs[w].place == WriteIn
    requires Run(Start(n), schedule).procs[q].name == Run(Start(n), schedule).procs[w].name
    ensures Run(Start(n), schedule).procs[q].place !in {ReadIn, WriteIn}
  {
    var s := Run(Start(n), schedule);
    StartInv(n);
    RunKeepsInv(Start(n), schedule);
    assert NameInv(s, s.procs[w].name);
    ReadersPositive(s.procs, s.procs[w].name);
  }

  /** The stored counter is the number of processes between incrementing and decrementing it. */
  lemma {:induction false} CounterIsReaders(n: nat, schedule: seq<(nat, Action)>, name: string)
    ensures CountOf(KeysOf(Run(Start(n), schedule), name)) == Readers(Run(Start(n), schedule).procs, name)
  {
    StartInv(n);
    RunKeepsInv(Start(n), schedule);
    assert NameInv(Run(Start(n), schedule), name);
  }

  /** The forced reset by the last reader only ever frees a lock that readers own, when none is left. */
  lemma {:induction false} ResetFreesOnlyReaders(n: nat, schedule: seq<(nat, Action)>, p: nat)
    requires p < |Run(Start(n), schedule).procs| && Run(Start(n), schedule).procs[p].place == ReadReset
    ensures var s := Run(Start(n), schedule);
            KeysOf(s, s.procs[p].name).wlock.HeldByReader? && Readers(s.procs, s.procs[p].name) == 0
  {
    var s := Run(Start(n), schedule);
    StartInv(n);
    RunKeepsInv(Start(n), schedule);
    assert NameInv(s, s.procs[p].name);
    assert HolderRight(s, s.procs[p].name, p);
  }

  /** A writer always releases its own lock, although all writers share one lock id. */
  lemma {:induction false} WriterReleasesOwnLock(n: nat, schedule: seq<(nat, Action)>, p: nat)
    requires p < |Run(Start(n), schedule).procs| && Run(Start(n), schedule).procs[p].place == WriteIn
    ensures var s := Run(Start(n), schedule);
            KeysOf(s, s.procs[p].name).wlock == HeldByWriter(p) && Next(s, p, Advance).Some?
  {
    var s := Run(Start(n), schedule);
    StartInv(n);
    RunKeepsInv(Start(n), schedule);
    assert NameInv(s, s.procs[p].name);
  }

  /** No deadlock: whenever some process is inside an operation, some process can advance. */
  lemma {:induction false} NoDeadlock(n: nat, schedule: seq<(nat, Action)>, p: nat)
    requires p < |Run(Start(n), schedule).procs| && Run(Start(n), schedule).procs[p].place != Idle
    ensures exists q: nat :: Next(Run(Start(n), schedule), q, Advance).Some?
  {
    var s := Run(Start(n), schedule);
    StartInv(n);
    RunKeepsInv(Start(n), schedule);
    var name := s.procs[p].name;
    var k := KeysOf(s, name);
    assert NameInv(s, name);
    if k.rlock.Some? {
      var h := k.rlock.value;
      assert HolderRight(s, name, h);
      if s.procs[h].place == ReadTakeW && k.wlock.HeldByWriter? {
        assert Next(s, k.wlock.writer, Advance).Some?;
      } else {
        assert Next(s, h, Advance).Some?;
      }
    } else if s.procs[p].place == WriteEnter && k.wlock.HeldByReader? {
      ReadersPositive(s.procs, name);
      var r :| 0 <= r < |s.procs| && Counted(s.procs[r], name);
      assert Next(s, r, Advance).Some?;
    } else if s.procs[p].place == WriteEnter && k.wlock.HeldByWriter? {
      assert Next(s, k.wlock.writer, Advance).Some?;
    } else {
      assert Next(s, p, Advance).Some?;
    }
  }

  /** A process that has to wait waits for a process that holds the short lock of its name, or a first reader
      for a writer, or a writer for a reader or a writer; and then it does have to wait. */
  lemma {:induction false} WaitsExactly(n: nat, schedule: seq<(nat, Action)>, p: nat)
    requires p < |Run(Start(n), schedule).procs| && Run(Start(n), schedule).procs[p].place != Idle
    ensures var s := Run(Start(n), schedule);
            var me, short := s.procs[p], exists q :: 0 <= q < |s.procs| && Holder(s, q, s.procs[p].name);
            Next(s, p, Advance) == None <==>
              || (me.place in {ReadEnter, ReadLeave} && short)
              || (me.place == ReadTakeW && Writing(s, me.name))
              || (me.place == WriteEnter && (Writing(s, me.name) || Reading(s, me.name)))
  {
    var s := Run(Start(n), schedule);
    var name := s.procs[p].name;
    StartInv(n);
    RunKeepsInv(Start(n), schedule);
    assert NameInv(s, name);
    assert HolderRight(s, name, p);
    ReadersPositive(s.procs, name);
    var k := KeysOf(s, name);
    if k.rlock.Some? {
      assert Holder(s, k.rlock.value, name);
    }
    if k.wlock.HeldByWriter? {
      assert s.procs[k.wlock.writer] == Process(name, WriteIn);
    }
    if k.wlock.HeldByReader? && Readers(s.procs, name) > 0 {
      var q :| 0 <= q < |s.procs| && Counted(s.procs[q], name);
      assert ReadsNow(s, q, name);
    } else if k.wlock.HeldByReader? {
      assert ReadsNow(s, k.rlock.value, name);
    }
    forall q: nat | ReadsNow(s, q, name)
      ensures k.wlock.HeldByReader?
    {
      assert HolderRight(s, name, q);
    }
  }

  predicate Holder(s: System, q: nat, name: string) {
    q < |s.procs| && s.procs[q].name == name && HoldsShort(s.procs[q].place)
  }

  predicate Writing(s: System, name: string) {
    exists q :: 0 <= q < |s.procs| && s.procs[q] == Process(name, WriteIn)
  }

  /** The process has the write lock for its name as a reader, or is counted as one. */
  predicate ReadsNow(s: System, q: nat, name: string) {
    q < |s.procs| && s.procs[q].name == name && (Owning(s.procs[q].place) || Counted(s.procs[q], name))
  }

  predicate Reading(s: System, name: string) {
    exists q :: 0 <= q < |s.procs| && ReadsNow(s, q, name)
  }

  /** A write is refused exactly while another process writes under the name. */
  lemma {:induction false} RefusedExactly(n: nat, schedule: seq<(nat, Action)>, p: nat)
    requires p < |Run(Start(n), schedule).procs|
    ensures var s := Run(Start(n), schedule);
            Next(s, p, Fail).Some? <==> s.procs[p].place == WriteEnter && Writing(s, s.procs[p].name)
  {
    var s := Run(Start(n), schedule);
    var name := s.procs[p].name;
    StartInv(n);
    RunKeepsInv(Start(n), schedule);
    assert NameInv(s, name);
    var k := KeysOf(s, name);
    if k.wlock.HeldByWriter? {
      assert s.procs[k.wlock.writer] == Process(name, WriteIn);
    }
  }

  // ----- no operation is skipped -----

  /** The process stands under the name and at the place after some part of the schedule. */
  ghost predicate Passes(s: System, schedule: seq<(nat, Action)>, p: nat, x: Process) {
    exists m: nat :: PassesAt(s, schedule, p, x, m)
  }

  predicate PassesAt(s: System, schedule: seq<(nat, Action)>, p: nat, x: Process, m: nat) {
    m <= |schedule| && p < |Run(s, schedule[..m]).procs| && Run(s, schedule[..m]).procs[p] == x
  }

  predicate BeforeReading(place: Place) {
    place in {ReadEnter, ReadCheck, ReadTakeW, ReadIncr, ReadUnlock}
  }

  lemma {:induction false} PassesLater(s: System, s': System, schedule: seq<(nat, Action)>, p: nat, x: Process)
    requires schedule != [] && Passes(s', schedule[1..], p, x)
    requires s' == AfterStep(s, schedule[0])
    ensures Passes(s, schedule, p, x)
  {
    var m: nat :| PassesAt(s', schedule[1..], p, x, m);
    assert schedule[..m + 1][0] == schedule[0] && schedule[..m + 1][1..] == schedule[1..][..m];
    assert PassesAt(s, schedule, p, x, m + 1);
  }

  function AfterStep(s: System, step: (nat, Action)): System {
    var next := Next(s, step.0, step.1);
    if next.Some? then next.value else s
  }

  lemma {:induction false} PassesNow(s: System, schedule: seq<(nat, Action)>, p: nat)
    requires p < |s.procs|
    ensures Passes(s, schedule, p, s.procs[p])
  {
    assert schedule[..0] == [] && PassesAt(s, schedule, p, s.procs[p], 0);
  }

  /** A step of any process takes a reader on its way in no further than the cache. */
  lemma {:induction false} ReaderStep(s: System, step: (nat, Action), p: nat)
    requires p < |s.procs| && BeforeReading(s.procs[p].place)
    ensures p < |AfterStep(s, step).procs|
    ensures var after := AfterStep(s, step).procs[p];
            after.name == s.procs[p].name && (BeforeReading(after.place) || after.place == ReadIn)
  {
  }

  /** A process that has asked to read under a name is still on its way in or has read the cache under that
      name: no read is skipped, whatever the other processes do. */
  lemma {:induction false} NoReadSkipped(s: System, schedule: seq<(nat, Action)>, p: nat)
    requires p < |s.procs| && BeforeReading(s.procs[p].place)
    ensures p < |Run(s, schedule).procs|
    ensures BeforeReading(Run(s, schedule).procs[p].place) || Passes(s, schedule, p, Process(s.procs[p].name, ReadIn))
    decreases |schedule|
  {
    if schedule != [] {
      var s' := AfterStep(s, schedule[0]);
      ReaderStep(s, schedule[0], p);
      hide Next;
      if s'.procs[p].place == ReadIn {
        PassesNow(s', schedule[1..], p);
        StepsKeepProcesses(s', schedule[1..]);
      } else {
        NoReadSkipped(s', schedule[1..], p);
      }
      if Passes(s', schedule[1..], p, Process(s.procs[p].name, ReadIn)) {
        PassesLater(s, s', schedule, p, Process(s.procs[p].name, ReadIn));
      }
    }
  }

  lemma {:induction false} StepsKeepProcesses(s: System, schedule: seq<(nat, Action)>)
    ensures |Run(s, schedule).procs| == |s.procs|
    decreases |schedule|
  {
    if schedule != [] {
      StepKeepsProcesses(s, schedule[0]);
      StepsKeepProcesses(AfterStep(s, schedule[0]), schedule[1..]);
    }
  }

  lemma {:induction false} StepKeepsProcesses(s: System, step: (nat, Action))
    ensures |AfterStep(s, step).procs| == |s.procs|
  {
  }

  /** A read that is started and over has read the cache: over every schedule, a process that starts a read
      and is idle again has been in the cache in between. */
  lemma {:induction false} StartedReadReads(
    n: nat, before: seq<(nat, Action)>, p: nat, name: string, after: seq<(nat, Action)>)
    requires Next(Run(Start(n), before), p, StartRead(name)).Some?
    ensures var s := Next(Run(Start(n), before), p, StartRead(name)).value;
            && p < |Run(s, after).procs|
            && (Run(s, after).procs[p].place == Idle ==> Passes(s, after, p, Process(name, ReadIn)))
  {
    var s := Next(Run(Start(n), before), p, StartRead(name)).value;
    assert s.procs[p] == Process(name, ReadEnter);
    hide Next;
    NoReadSkipped(s, after, p);
  }

  /** So has a write, unless it was refused. */
  lemma {:induction false} StartedWriteWrites(
    n: nat, before: seq<(nat, Action)>, p: nat, name: string, after: seq<(nat, Action)>)
    requires Next(Run(Start(n), before), p, StartWrite(name)).Some?
    requires forall i :: 0 <= i < |after| ==> after[i] != (p, Fail)
    ensures var s := Next(Run(Start(n), before), p, StartWrite(name)).value;
            && p < |Run(s, after).procs|
            && (Run(s, after).procs[p].place == Idle ==> Passes(s, after, p, Process(name, WriteIn)))
  {
    var s := Next(Run(Start(n), before), p, StartWrite(name)).value;
    assert s.procs[p] == Process(name, WriteEnter);
    hide Next;
    NoWriteSkipped(s, after, p);
  }

  lemma {:induction false} WriterStep(s: System, step: (nat, Action), p: nat)
    requires p < |s.procs| && s.procs[p].place == WriteEnter && step != (p, Fail)
    ensures p < |AfterStep(s, step).procs|
    ensures AfterStep(s, step).procs[p] in {s.procs[p], Process(s.procs[p].name, WriteIn)}
  {
  }

  lemma {:induction false} NoWriteSkipped(s: System, schedule: seq<(nat, Action)>, p: nat)
    requires p < |s.procs| && s.procs[p].place == WriteEnter
    requires forall i :: 0 <= i < |schedule| ==> schedule[i] != (p, Fail)
    ensures p < |Run(s, schedule).procs|
    ensures Run(s, schedule).procs[p].place == WriteEnter
            || Passes(s, schedule, p, Process(s.procs[p].name, WriteIn))
    decreases |schedule|
  {
    if schedule != [] {
      var s' := AfterStep(s, schedule[0]);
      WriterStep(s, schedule[0], p);
      hide Next;
      assert forall i :: 0 <= i < |schedule| - 1 ==> schedule[1..][i] == schedule[i + 1];
      if s'.procs[p].place == WriteIn {
        PassesNow(s', schedule[1..], p);
        StepsKeepProcesses(s', schedule[1..]);
      } else {
        NoWriteSkipped(s', schedule[1..], p);
      }
      if Passes(s', schedule[1..], p, Process(s.procs[p].name, WriteIn)) {
        PassesLater(s, s', schedule, p, Process(s.procs[p].name, WriteIn));
      }
    }
  }

  // ----- entering -----

  function Advances(p: nat, k: nat): seq<(nat, Action)> {
    if k == 0 then [] else [(p, Advance)] + Advances(p, k - 1)
  }

  lemma {:induction false} RunAppend(s: System, x: seq<(nat, Action)>, y: seq<(nat, Action)>)
    ensures Run(s, x + y) == Run(Run(s, x), y)
    decreases |x|
  {
    hide Next;
    if x == [] {
      assert x + y == y;
    } else {
      assert (x + y)[0] == x[0] && (x + y)[1..] == x[1..] + y;
      RunAppend(AfterStep(s, x[0]), x[1..], y);
    }
  }

  lemma {:induction false} AdvanceOnce(s: System, p: nat, k: nat)
    requires k > 0
    ensures Run(s, Advances(p, k)) == Run(AfterStep(s, (p, Advance)), Advances(p, k - 1))
  {
    hide Next;
    assert Advances(p, k)[1..] == Advances(p, k - 1);
  }

  /** A reader on a free name enters in five steps. */
  lemma {:induction false} FirstEnters(s: System, p: nat, name: string)
    requires p < |s.procs| && s.procs[p] == Process(name, ReadEnter)
    requires KeysOf(s, name).rlock == None && KeysOf(s, name).wlock == Free && CountOf(KeysOf(s, name)) == 0
    ensures var s' := Run(s, Advances(p, 5));
            && s'.procs == s.procs[p := Process(name, ReadIn)]
            && KeysOf(s', name) == Keys(None, HeldByReader(p), Some(1))
            && forall x :: x != name ==> KeysOf(s', x) == KeysOf(s, x)
  {
    var s1 := AfterStep(s, (p, Advance));
    var s2 := AfterStep(s1, (p, Advance));
    var s3 := AfterStep(s2, (p, Advance));
    var s4 := AfterStep(s3, (p, Advance));
    var s5 := AfterStep(s4, (p, Advance));
    AdvanceOnce(s, p, 5);
    AdvanceOnce(s1, p, 4);
    AdvanceOnce(s2, p, 3);
    AdvanceOnce(s3, p, 2);
    AdvanceOnce(s4, p, 1);
    assert Run(s5, Advances(p, 0)) == s5;
  }

  /** A reader beside another one enters in four: it counts itself without the write lock. */
  lemma {:induction false} NextEnters(s: System, p: nat, name: string)
    requires p < |s.procs| && s.procs[p] == Process(name, ReadEnter)
    requires KeysOf(s, name).rlock == None && CountOf(KeysOf(s, name)) > 0
    ensures Run(s, Advances(p, 4)).procs == s.procs[p := Process(name, ReadIn)]
  {
    var s1 := AfterStep(s, (p, Advance));
    var s2 := AfterStep(s1, (p, Advance));
    var s3 := AfterStep(s2, (p, Advance));
    var s4 := AfterStep(s3, (p, Advance));
    AdvanceOnce(s, p, 4);
    AdvanceOnce(s1, p, 3);
    AdvanceOnce(s2, p, 2);
    AdvanceOnce(s3, p, 1);
    assert Run(s4, Advances(p, 0)) == s4;
  }

  lemma {:induction false} OneStep(s: System, step: (nat, Action))
    ensures Run(s, [step]) == AfterStep(s, step)
  {
    hide Next;
    assert [step][1..] == [];
  }

  /** The first of two processes enters as a reader. */
  function OneIn(a: string): seq<(nat, Action)> {
    [(0, StartRead(a))] + Advances(0, 5)
  }

  lemma {:induction false} OneEnters(a: string)
    ensures var s := Run(Start(2), OneIn(a));
            && s.procs == [Process(a, ReadIn), Process("", Idle)]
            && KeysOf(s, a) == Keys(None, HeldByReader(0), Some(1))
            && forall x :: x != a ==> KeysOf(s, x) == Keys(None, Free, None)
  {
    var s := AfterStep(Start(2), (0, StartRead(a)));
    RunAppend(Start(2), [(0, StartRead(a))], Advances(0, 5));
    OneStep(Start(2), (0, StartRead(a)));
    assert s.procs == [Process(a, ReadEnter), Process("", Idle)] && s.keys == map[];
    hide Next, AfterStep, Run;
    FirstEnters(s, 0, a);
  }

  // ----- the names the caches use -----

  /** The name under which an expression cache file is read, and the one under which it is written. */
  function ExpressionReadName(dataUri: string, cacheUri: string): string {
    "expression-" + cacheUri
  }

  function ExpressionWriteName(dataUri: string, cacheUri: string): string {
    dataUri + ":expression-" + cacheUri
  }

  /** The name under which a dataset cache file is read and generated, with the data directory of its
      frequency, and updated, with that of the default frequency. */
  function DatasetName(dataUri: string, cacheUri: string): string {
    dataUri + ":dataset-" + cacheUri
  }

  /** Different cache files have different names, so a lock is never shared between two files of one kind. */
  lemma {:induction false} FilesHaveOwnNames(dataUri: string, a: string, b: string)
    ensures ExpressionReadName(dataUri, a) == ExpressionReadName(dataUri, b) <==> a == b
    ensures ExpressionWriteName(dataUri, a) == ExpressionWriteName(dataUri, b) <==> a == b
    ensures DatasetName(dataUri, a) == DatasetName(dataUri, b) <==> a == b
  {
    PrefixCancels("expression-", a, b);
    PrefixCancels(dataUri + ":expression-", a, b);
    PrefixCancels(dataUri + ":dataset-", a, b);
  }

  /** Two processes on lock names a and b can be reading and writing at the same time exactly when
      the names differ. */
  lemma {:induction false} OverlapExactly(a: string, b: string)
    ensures CanOverlap(a, b) <==> a != b
  {
    if a != b {
      OverlapRun(a, b);
      assert CanOverlap(a, b);
    } else {
      forall n: nat, schedule: seq<(nat, Action)>, r: nat, w: nat
        ensures !Overlaps(Run(Start(n), schedule), r, w, a, b)
      {
        if Overlaps(Run(Start(n), schedule), r, w, a, b) {
          Exclusion(n, schedule, w, r);
        }
      }
    }
  }

  predicate Overlaps(s: System, r: nat, w: nat, a: string, b: string) {
    r < |s.procs| && w < |s.procs| && s.procs[r] == Process(a, ReadIn) && s.procs[w] == Process(b, WriteIn)
  }

  /** Some number of processes has a schedule that reaches a read under a beside a write under b. */
  ghost predicate CanOverlap(a: string, b: string) {
    exists n: nat, schedule: seq<(nat, Action)>, r: nat, w: nat ::
      Overlaps(Run(Start(n), schedule), r, w, a, b)
  }

  lemma {:induction false} RunStep(s: System, p: nat, act: Action, rest: seq<(nat, Action)>, s': System)
    requires Next(s, p, act).Some?
    requires Next(s, p, act).value.procs == s'.procs && Next(s, p, act).value.keys == s'.keys
    ensures Run(s, [(p, act)] + rest) == Run(s', rest)
  {
    assert ([(p, act)] + rest)[1..] == rest;
  }

  lemma {:induction false} OverlapRun(a: string, b: string)
    requires a != b
    ensures Overlaps(Run(Start(2), OneIn(a) + ([(1, StartWrite(b))] + Advances(1, 1))), 0, 1, a, b)
  {
    var s := Run(Start(2), OneIn(a));
    OneEnters(a);
    RunAppend(Start(2), OneIn(a), [(1, StartWrite(b))] + Advances(1, 1));
    RunAppend(s, [(1, StartWrite(b))], Advances(1, 1));
    OneStep(s, (1, StartWrite(b)));
    var s' := AfterStep(s, (1, StartWrite(b)));
    assert s'.procs == [Process(a, ReadIn), Process(b, WriteEnter)] && s'.keys == s.keys;
    assert KeysOf(s', b) == KeysOf(s, b);
    AdvanceOnce(s', 1, 1);
    var done := AfterStep(s', (1, Advance));
    assert Run(done, Advances(1, 0)) == done;
  }

  /** The expression cache reads and writes one file under different lock names, so the protocol
      never makes a reader of the file wait for its writer. */
  lemma {:induction false} ExpressionNamesNeverExclude(dataUri: string, cacheUri: string)
    ensures ExpressionReadName(dataUri, cacheUri) != ExpressionWriteName(dataUri, cacheUri)
    ensures CanOverlap(ExpressionReadName(dataUri, cacheUri), ExpressionWriteName(dataUri, cacheUri))
  {
    assert |ExpressionReadName(dataUri, cacheUri)| < |ExpressionWriteName(dataUri, cacheUri)|;
    OverlapExactly(ExpressionReadName(dataUri, cacheUri), ExpressionWriteName(dataUri, cacheUri));
  }

  /** A dataset cache read under one data directory excludes its update under another exactly when
      the two directories are the same. */
  lemma {:induction false} DatasetNamesExcludeExactly(readUri: string, updateUri: string, cacheUri: string)
    ensures CanOverlap(DatasetName(readUri, cacheUri), DatasetName(updateUri, cacheUri)) <==> readUri != updateUri
  {
    var suffix := ":dataset-" + cacheUri;
    assert DatasetName(readUri, cacheUri) == readUri + suffix;
    assert DatasetName(updateUri, cacheUri) == updateUri + suffix;
    SuffixCancels(readUri, updateUri, suffix);
    OverlapExactly(DatasetName(readUri, cacheUri), DatasetName(updateUri, cacheUri));
  }

  predicate BothWrite(s: System, v: nat, w: nat, a: string, b: string) {
    v < |s.procs| && w < |s.procs| && v != w && s.procs[v] == Process(a, WriteIn) && s.procs[w] == Process(b, WriteIn)
  }

  /** Some number of processes has a schedule that reaches a write under a beside a write under b. */
  ghost predicate CanBothWrite(a: string, b: string) {
    exists n: nat, schedule: seq<(nat, Action)>, v: nat, w: nat :: BothWrite(Run(Start(n), schedule), v, w, a, b)
  }

  /** Two processes on lock names a and b can be writing at the same time exactly when the names differ. */
  lemma {:induction false} BothWriteExactly(a: string, b: string)
    ensures CanBothWrite(a, b) <==> a != b
  {
    if a != b {
      BothWriteRun(a, b);
      assert CanBothWrite(a, b);
    } else {
      forall n: nat, schedule: seq<(nat, Action)>, v: nat, w: nat
        ensures !BothWrite(Run(Start(n), schedule), v, w, a, b)
      {
        if BothWrite(Run(Start(n), schedule), v, w, a, b) {
          Exclusion(n, schedule, w, v);
        }
      }
    }
  }

  lemma {:induction false} BothWriteRun(a: string, b: string)
    requires a != b
    ensures BothWrite(Run(Start(2), [(0, StartWrite(a)), (0, Advance), (1, StartWrite(b)), (1, Advance)]), 0, 1, a, b)
  {
    var second := [(1, StartWrite(b))] + ([(1, Advance)] + []);
    assert [(0, StartWrite(a)), (0, Advance), (1, StartWrite(b)), (1, Advance)]
        == [(0, StartWrite(a))] + ([(0, Advance)] + second);
    assert Start(2).procs == [Process("", Idle), Process("", Idle)];
    var s1 := System([Process(a, WriteEnter), Process("", Idle)], map[]);
    RunStep(Start(2), 0, StartWrite(a), [(0, Advance)] + second, s1);
    var s2 := System([Process(a, WriteIn), Process("", Idle)], map[a := Keys(None, HeldByWriter(0), None)]);
    RunStep(s1, 0, Advance, second, s2);
    var s3 := System([Process(a, WriteIn), Process(b, WriteEnter)], s2.keys);
    RunStep(s2, 1, StartWrite(b), [(1, Advance)] + [], s3);
    var s4 := System([Process(a, WriteIn), Process(b, WriteIn)], s2.keys[b := Keys(None, HeldByWriter(1), None)]);
    RunStep(s3, 1, Advance, [], s4);
  }

  /** Generating a cache file, under the data directory of its frequency, excludes updating it, under that
      of the default frequency, exactly when the two directories are the same. */
  lemma {:induction false} GenerationExcludesUpdateExactly(genUri: string, updateUri: string, cacheUri: string)
    ensures CanBothWrite(ExpressionWriteName(genUri, cacheUri), ExpressionWriteName(updateUri, cacheUri))
            <==> genUri != updateUri
    ensures CanBothWrite(DatasetName(genUri, cacheUri), DatasetName(updateUri, cacheUri)) <==> genUri != updateUri
  {
    hide CanBothWrite;
    var expression, dataset := ":expression-" + cacheUri, ":dataset-" + cacheUri;
    assert forall uri :: ExpressionWriteName(uri, cacheUri) == uri + expression;
    assert forall uri :: DatasetName(uri, cacheUri) == uri + dataset;
    SuffixCancels(genUri, updateUri, expression);
    SuffixCancels(genUri, updateUri, dataset);
    BothWriteExactly(ExpressionWriteName(genUri, cacheUri), ExpressionWriteName(updateUri, cacheUri));
    BothWriteExactly(DatasetName(genUri, cacheUri), DatasetName(updateUri, cacheUri));
  }

  // ----- readers share -----

  predicate BothRead(s: System, v: nat, w: nat, a: string, b: string) {
    v < |s.procs| && w < |s.procs| && v != w && s.procs[v] == Process(a, ReadIn) && s.procs[w] == Process(b, ReadIn)
  }

  /** A reader, then a second one under the same name or another. */
  function SharedSchedule(a: string, b: string): seq<(nat, Action)> {
    OneIn(a) + ([(1, StartRead(b))] + Advances(1, if a == b then 4 else 5))
  }

  /** Readers share, under one name as well as under two: some schedule has two processes in the cache. */
  lemma {:induction false} ReadersShare(a: string, b: string)
    ensures BothRead(Run(Start(2), SharedSchedule(a, b)), 0, 1, a, b)
  {
    var second := Advances(1, if a == b then 4 else 5);
    var s := Run(Start(2), OneIn(a));
    OneEnters(a);
    RunAppend(Start(2), OneIn(a), [(1, StartRead(b))] + second);
    RunAppend(s, [(1, StartRead(b))], second);
    OneStep(s, (1, StartRead(b)));
    var s' := AfterStep(s, (1, StartRead(b)));
    assert s'.procs == [Process(a, ReadIn), Process(b, ReadEnter)] && s'.keys == s.keys;
    assert KeysOf(s', b) == KeysOf(s, b);
    hide Next, AfterStep, Run;
    if a == b {
      NextEnters(s', 1, b);
    } else {
      FirstEnters(s', 1, b);
    }
  }
}
