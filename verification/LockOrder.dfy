/** The three locks of the engine: who can hold what, who can wait for whom, and why nobody waits
    for ever. */
module LockOrder {
  import Machine
  import Stores
  import Format = SsTableFormat
  import Mem = MemTable

  datatype Lock = WalLock | MemLock | LevelsLock

  datatype Mode = Shared | Exclusive

  datatype Instr = Acquire(lock: Lock, mode: Mode) | Release(lock: Lock)

  /** What a thread is executing: `set` or `delete` with or without a flush, `get` answered by the
      memtable or not, and one wake-up of the compaction thread. */
  datatype Op = Write(flushes: bool) | Get(inMem: bool) | Poll(compacts: bool)

  /** The lock operations, in program order. */
  function Program(op: Op): seq<Instr> {
    match op
    case Write(flushes) =>
      [Acquire(WalLock, Exclusive), Release(WalLock), Acquire(MemLock, Exclusive), Release(MemLock)] +
      (if flushes then [Acquire(WalLock, Exclusive), Acquire(MemLock, Exclusive), Release(MemLock), Release(WalLock),
                        Acquire(LevelsLock, Exclusive), Release(LevelsLock)] else [])
    case Get(inMem) =>
      [Acquire(MemLock, Shared), Release(MemLock)] +
      (if inMem then [] else [Acquire(LevelsLock, Shared), Release(LevelsLock)])
    case Poll(compacts) =>
      [Acquire(LevelsLock, Shared), Release(LevelsLock)] +
      (if compacts then [Acquire(LevelsLock, Exclusive), Release(LevelsLock)] else [])
  }

  /** The locks held after a prefix of a program. */
  function HeldAfter(program: seq<Instr>): map<Lock, Mode> {
    if program == [] then map[] else
    var earlier := HeldAfter(program[..|program| - 1]);
    match program[|program| - 1]
    case Acquire(lock, mode) => earlier[lock := mode]
    case Release(lock) => earlier - {lock}
  }

  /** A thread at position `pc` of its program. */
  datatype Thread = Thread(op: Op, pc: nat)
  {
    predicate Valid() { pc <= |Program(op)| }

    function Held(): map<Lock, Mode>
      requires Valid()
    {
      HeldAfter(Program(op)[..pc])
    }

    predicate Finished() { pc >= |Program(op)| }

    function Next(): Instr
      requires !Finished()
    {
      Program(op)[pc]
    }

    predicate Wants(lock: Lock) {
      !Finished() && Next().Acquire? && Next().lock == lock
    }
  }

  type Threads = map<nat, Thread>

  predicate Compatible(a: Mode, b: Mode) { a == Shared && b == Shared }

  ghost predicate AllValid(ts: Threads) {
    forall t | t in ts :: ts[t].Valid()
  }

  /** No two threads hold a lock in incompatible modes. */
  ghost predicate Exclusion(ts: Threads)
    requires AllValid(ts)
  {
    forall t, u, lock | t in ts && u in ts && t != u && lock in ts[t].Held() && lock in ts[u].Held() ::
      Compatible(ts[t].Held()[lock], ts[u].Held()[lock])
  }

  /** Nobody holds the wanted lock in an incompatible mode. */
  ghost predicate Free(ts: Threads, t: nat, lock: Lock, mode: Mode)
    requires AllValid(ts)
  {
    forall u | u in ts && u != t && lock in ts[u].Held() :: Compatible(mode, ts[u].Held()[lock])
  }

  /** The thread can take its next lock step now. */
  ghost predicate CanStep(ts: Threads, t: nat)
    requires AllValid(ts)
  {
    t in ts && !ts[t].Finished() && (ts[t].Next().Acquire? ==> Free(ts, t, ts[t].Next().lock, ts[t].Next().mode))
  }

  /** One transition: a thread takes its next lock step, or a finished one starts another operation. */
  ghost predicate Transition(before: Threads, after: Threads)
    requires AllValid(before)
  {
    exists t | t in before ::
      || (CanStep(before, t) && after == before[t := Thread(before[t].op, before[t].pc + 1)])
      || (before[t].Finished() && exists op :: after == before[t := Thread(op, 0)])
  }

  ghost predicate IsLockRun(states: seq<Threads>) {
    && states != []
    && (forall t | t in states[0] :: states[0][t].pc == 0)
    && forall i | 0 <= i < |states| - 1 :: AllValid(states[i]) && Transition(states[i], states[i + 1])
  }

  /** `t` waits for a lock that `u` holds. */
  ghost predicate WaitsFor(ts: Threads, t: nat, u: nat)
    requires AllValid(ts)
  {
    t in ts && u in ts && t != u && exists lock :: ts[t].Wants(lock) && lock in ts[u].Held()
  }

  /** What the programs fix: the memtable lock and the levels lock are released without waiting, and
      a holder of the log lock waits for nothing but the memtable lock. */
  lemma HolderFacts(th: Thread)
    requires th.Valid()
    ensures MemLock in th.Held() || LevelsLock in th.Held() ==> !th.Finished() && th.Next().Release?
    ensures WalLock in th.Held() ==> !th.Finished() && (th.Next().Release? || th.Wants(MemLock))
    ensures forall lock | lock in th.Held() :: !th.Finished() && (th.Next().Release? || th.Wants(MemLock))
    ensures LevelsLock in th.Held() ==> th.Held().Keys == {LevelsLock}
    ensures !th.Finished() && th.Next().Acquire? ==> th.Next().lock !in th.Held()
  {
    HeldAt(th.op, th.pc);
    forall lock | lock in th.Held()
      ensures !th.Finished() && (th.Next().Release? || th.Wants(MemLock))
    {
      assert lock == WalLock || lock == MemLock || lock == LevelsLock;
    }
  }

  /** The locks held at every position, computed step by step. */
  lemma HeldAt(op: Op, pc: nat)
    requires pc <= |Program(op)|
    ensures var held := HeldAfter(Program(op)[..pc]);
            match op
            case Write(_) =>
              held == if pc == 1 then map[WalLock := Exclusive] else if pc == 3 then map[MemLock := Exclusive]
                      else if pc == 5 || pc == 7 then map[WalLock := Exclusive]
                      else if pc == 6 then map[WalLock := Exclusive, MemLock := Exclusive]
                      else if pc == 9 then map[LevelsLock := Exclusive] else map[]
            case Get(_) =>
              held == if pc == 1 then map[MemLock := Shared] else if pc == 3 then map[LevelsLock := Shared] else map[]
            case Poll(_) =>
              held == if pc == 1 then map[LevelsLock := Shared] else if pc ==
                  3 then map[LevelsLock := Exclusive] else map[]
  {
    if pc > 0 {
      HeldAt(op, pc - 1);
      assert Program(op)[..pc][..pc - 1] == Program(op)[..pc - 1];
      assert Program(op)[..pc][pc - 1] == Program(op)[pc - 1];
    }
  }

  // ---------- mutual exclusion ----------

  lemma StepKeepsExclusion(before: Threads, after: Threads)
    requires AllValid(before) && Exclusion(before) && Transition(before, after)
    ensures AllValid(after) && Exclusion(after)
  {
    hide Program, HeldAfter;
    var t :| t in before &&
      ((CanStep(before, t) && after == before[t := Thread(before[t].op, before[t].pc + 1)]) ||
       (before[t].Finished() && exists op :: after == before[t := Thread(op, 0)]));
    assert AllValid(after);
    HeldGrows(before, after, t);
  }

  lemma HeldGrows(before: Threads, after: Threads, t: nat)
    requires AllValid(before) && AllValid(after) && Exclusion(before) && t in before && t in after
    requires (CanStep(before, t) && after == before[t := Thread(before[t].op, before[t].pc + 1)]) ||
             (after[t].pc == 0 && after == before[t := after[t]])
    ensures Exclusion(after)
  {
    hide Program;
    var th := after[t];
    if th.pc > 0 {
      assert Program(th.op)[..th.pc][..th.pc - 1] == Program(th.op)[..th.pc - 1];
    }
    forall u, lock | u in after && u != t && lock in after[t].Held() && lock in after[u].Held()
      ensures Compatible(after[t].Held()[lock], after[u].Held()[lock])
    {
      assert after[u] == before[u];
    }
  }

  /** Mutual exclusion holds in every reachable state. */
  lemma {:induction false} RunKeepsExclusion(states: seq<Threads>, n: nat)
    requires IsLockRun(states) && n < |states|
    ensures AllValid(states[n]) && Exclusion(states[n])
  {
    hide Transition, Exclusion;
    if n == 0 {
      NothingHeld(states[0]);
    } else {
      RunKeepsExclusion(states, n - 1);
      assert AllValid(states[n - 1]) && Transition(states[n - 1], states[n]);
      StepKeepsExclusion(states[n - 1], states[n]);
    }
  }

  lemma NothingHeld(ts: Threads)
    requires forall t | t in ts :: ts[t].pc == 0
    ensures AllValid(ts) && Exclusion(ts)
  {
    hide Program;
  }

  // ---------- no deadlock ----------

  /** A lock that two threads hold at once is not the log lock, and neither of them is writing. */
  lemma SharedHoldersRead(states: seq<Threads>, n: nat, t: nat, u: nat, lock: Lock)
    requires IsLockRun(states) && n < |states| && t in states[n] && u in states[n] && t != u
    requires states[n][t].Valid() && states[n][u].Valid()
    requires lock in states[n][t].Held() && lock in states[n][u].Held()
    ensures lock != WalLock && !states[n][t].op.Write? && !states[n][u].op.Write?
    ensures states[n][t].Held() == states[n][u].Held() == map[lock := Shared]
  {
    hide Transition;
    RunKeepsExclusion(states, n);
    HeldAt(states[n][t].op, states[n][t].pc);
    HeldAt(states[n][u].op, states[n][u].pc);
    assert Compatible(states[n][t].Held()[lock], states[n][u].Held()[lock]);
    hide HeldAfter, Program;
  }

  /** Nobody waits for a thread that waits for a waiting thread: chains of waiting have length two. */
  lemma WaitingIsShallow(ts: Threads, a: nat, b: nat, c: nat)
    requires AllValid(ts) && WaitsFor(ts, a, b) && WaitsFor(ts, b, c)
    ensures !ts[c].Finished() && ts[c].Next().Release?
    ensures forall d :: !WaitsFor(ts, c, d)
  {
    hide Program, HeldAfter;
    HolderFacts(ts[b]);
    HolderFacts(ts[c]);
  }

  /** A closed chain of waiting threads. */
  ghost predicate IsCycle(ts: Threads, cycle: seq<nat>)
    requires AllValid(ts)
  {
    && cycle != []
    && forall i | 0 <= i < |cycle| :: WaitsFor(ts, cycle[i], cycle[if i + 1 < |cycle| then i + 1 else 0])
  }

  /** In every reachable state, no cycle of threads wait for each other. */
  lemma NoDeadlock(states: seq<Threads>, n: nat, cycle: seq<nat>)
    requires IsLockRun(states) && n < |states|
    ensures AllValid(states[n]) && !IsCycle(states[n], cycle)
  {
    hide WaitsFor, Transition, Exclusion;
    RunKeepsExclusion(states, n);
    var ts := states[n];
    if IsCycle(ts, cycle) {
      var i1 := if 1 < |cycle| then 1 else 0;
      var i2 := if i1 + 1 < |cycle| then i1 + 1 else 0;
      var i3 := if i2 + 1 < |cycle| then i2 + 1 else 0;
      assert WaitsFor(ts, cycle[0], cycle[i1]);
      assert WaitsFor(ts, cycle[i1], cycle[i2]);
      assert WaitsFor(ts, cycle[i2], cycle[i3]);
      WaitingIsShallow(ts, cycle[0], cycle[i1], cycle[i2]);
    }
  }

  /** Progress: in every reachable state in which some thread is inside an operation, some thread can
      take its next lock step. */
  lemma SomeoneCanStep(states: seq<Threads>, n: nat, t: nat) returns (u: nat)
    requires IsLockRun(states) && n < |states| && t in states[n] && !states[n][t].Finished()
    ensures AllValid(states[n]) && CanStep(states[n], u)
  {
    hide Program, HeldAfter, Transition, Exclusion;
    RunKeepsExclusion(states, n);
    var ts := states[n];
    if CanStep(ts, t) {
      u := t;
    } else {
      var lock := ts[t].Next().lock;
      var v :| v in ts && v != t && lock in ts[v].Held();
      HolderFacts(ts[v]);
      if CanStep(ts, v) {
        u := v;
      } else {
        var inner := ts[v].Next().lock;
        var x :| x in ts && x != v && inner in ts[x].Held();
        HolderFacts(ts[x]);
        u := x;
      }
    }
  }

  // ---------- the lock programs and the step machine ----------

  /** How far into a flushing write a client of the machine is. */
  function Position(pc: Machine.Pc): nat {
    match pc
    case Idle => 0
    case Logged(_) => 2
    case Full => 4
    case Named(_) => 4
    case Swapped(_, _) => 7
    case Renamed(_, _) => 7
    case Truncated(_, _) => 8
  }

  /** The lock steps that one event of a client stands for. */
  function LockSteps(e: Machine.Event): seq<Instr> {
    match e
    case Append(_, _) => [Acquire(WalLock, Exclusive), Release(WalLock)]
    case Insert(_) => [Acquire(MemLock, Exclusive), Release(MemLock)]
    case Swap(_) => [Acquire(WalLock, Exclusive), Acquire(MemLock, Exclusive), Release(MemLock)]
    case Truncate(_) => [Release(WalLock)]
    case Register(_) => [Acquire(LevelsLock, Exclusive), Release(LevelsLock)]
    case _ => []
  }

  /** Between two events a client of the machine holds the log lock exactly when the lock program says so,
      and no other lock. */
  lemma ClientHolds(pc: Machine.Pc)
    ensures Position(pc) <= |Program(Write(true))|
    ensures Thread(Write(true), Position(pc)).Held() ==
            if Machine.HoldsWal(pc) then map[WalLock := Exclusive] else map[]
  {
    HeldAt(Write(true), Position(pc));
  }

  /** Between two steps of a compaction the thread holds the levels lock, and at rest nothing. */
  lemma CompactorHolds(resting: bool)
    ensures Thread(Poll(true), if resting then 2 else 3).Held() ==
            if resting then map[] else map[LevelsLock := Exclusive]
  {
    HeldAt(Poll(true), 2);
    HeldAt(Poll(true), 3);
  }

  /** A read holds the memtable lock for its first look and, if that finds nothing, the levels lock for its second,
      shared both times, and nothing in between. */
  lemma ReaderHolds(inMem: bool, pc: nat)
    requires pc <= |Program(Get(inMem))|
    ensures |Program(Get(inMem))| == if inMem then 2 else 4
    ensures Thread(Get(inMem), pc).Held() ==
            if pc == 1 then map[MemLock := Shared] else if pc == 3 then map[LevelsLock := Shared] else map[]
  {
    HeldAt(Get(inMem), pc);
  }

  /** Where a client stands before and after an event that moves it, and which locks were free. */
  ghost predicate Moves(s: Machine.System, e: Machine.Event, before: Machine.Pc, after: Machine.Pc) {
    match e
    case Append(_, _) => before.Idle? && after.Logged? && Machine.WalFree(s)
    case Insert(_) => before.Logged? && (after.Full? || after.Idle?)
    case ChooseName(_) => before.Full? && after.Named?
    case Swap(_) => before.Named? && after.Swapped? && Machine.WalFree(s)
    case Rename(_) => before.Swapped? && after.Renamed?
    case Truncate(_) => before.Renamed? && after.Truncated?
    case Register(_) => before.Truncated? && after.Idle? && s.compactor == Machine.Resting
    case _ => false
  }

  lemma EventMoves(s: Machine.System, e: Machine.Event, c: Machine.Config, t: nat)
    requires Machine.Enabled(s, e, c) && !e.Crash? && Machine.PcOf(s, t) != Machine.PcOf(Machine.Do(s, e, c), t)
    ensures Moves(s, e, Machine.PcOf(s, t), Machine.PcOf(Machine.Do(s, e, c), t))
  {
    hide Machine.Enabled, Machine.Do, Machine.PcOf, Moves;
    if e.Append? || e.Insert? || e.ChooseName? || e.Swap? {
      WriteMoves(s, e, c, t);
    } else if e.Rename? || e.Truncate? || e.Register? {
      FlushMoves(s, e, c, t);
    } else {
      OthersStay(s, e, c, t);
    }
  }

  lemma WriteMoves(s: Machine.System, e: Machine.Event, c: Machine.Config, t: nat)
    requires Machine.Enabled(s, e, c) && (e.Append? || e.Insert? || e.ChooseName? || e.Swap?)
    requires Machine.PcOf(s, t) != Machine.PcOf(Machine.Do(s, e, c), t)
    ensures Moves(s, e, Machine.PcOf(s, t), Machine.PcOf(Machine.Do(s, e, c), t))
  {
    hide Stores.MustFlush, Stores.Applied, Stores.WithLogged, Machine.Tick, Machine.WalFree, Machine.AfterRename;
    hide Machine.AfterTruncate, Machine.AfterRegister, Machine.AfterMerge, Machine.AfterDelete, Machine.AfterPublish;
    hide Machine.AfterFail, Machine.AfterScribble, Machine.AfterCrash, Machine.CanMerge, Machine.CanRename;
  }

  lemma FlushMoves(s: Machine.System, e: Machine.Event, c: Machine.Config, t: nat)
    requires Machine.Enabled(s, e, c) && (e.Rename? || e.Truncate? || e.Register?)
    requires Machine.PcOf(s, t) != Machine.PcOf(Machine.Do(s, e, c), t)
    ensures Moves(s, e, Machine.PcOf(s, t), Machine.PcOf(Machine.Do(s, e, c), t))
  {
    hide Stores.WithTable, Stores.WithoutLog, Machine.AfterAppend, Machine.AfterInsert, Machine.AfterChooseName;
    hide Machine.AfterSwap, Machine.AfterMerge, Machine.AfterDelete, Machine.AfterPublish, Machine.AfterFail;
    hide Machine.AfterScribble, Machine.AfterCrash, Machine.CanMerge, Machine.CanAppend, Machine.CanSwap;
  }

  /** No other event but a crash moves a client. */
  lemma OthersStay(s: Machine.System, e: Machine.Event, c: Machine.Config, t: nat)
    requires Machine.Enabled(s, e, c)
    requires e.Scribble? || e.Merge? || e.DeleteInputs? || e.Publish? || e.Fail?
    ensures Machine.PcOf(Machine.Do(s, e, c), t) == Machine.PcOf(s, t)
  {
    hide Machine.Tick, Machine.Inputs, Machine.AfterAppend, Machine.AfterInsert, Machine.AfterChooseName;
    hide Machine.AfterSwap, Machine.AfterRename, Machine.AfterTruncate, Machine.AfterRegister, Machine.AfterCrash;
  }

  /** Every event of a client advances it along the lock program by the lock steps of that event. The machine
      allows it only when the locks it takes are free: no flush holds the log lock, no compaction the levels
      lock. */
  lemma EventFollowsProgram(s: Machine.System, e: Machine.Event, c: Machine.Config, t: nat)
    requires Machine.Enabled(s, e, c) && !e.Crash? && Machine.PcOf(s, t) != Machine.PcOf(Machine.Do(s, e, c), t)
    ensures var before, after := Machine.PcOf(s, t), Machine.PcOf(Machine.Do(s, e, c), t);
            var end := if after.Idle? then Position(before) + 2 else Position(after);
            Position(before) <= end <= |Program(Write(true))| &&
            Program(Write(true))[Position(before)..end] == LockSteps(e)
    ensures Acquire(WalLock, Exclusive) in LockSteps(e) ==> Machine.WalFree(s)
    ensures Acquire(LevelsLock, Exclusive) in LockSteps(e) ==> s.compactor == Machine.Resting
  {
    hide Machine.Enabled, Machine.Do, Machine.PcOf, Machine.WalFree, Program;
    EventMoves(s, e, c, t);
    Slices();
  }

  /** The lock steps of the events of a flushing write, one after the other, are its lock program. */
  lemma Slices()
    ensures var program := Program(Write(true));
            && |program| == 10
            && program[0..2] == [Acquire(WalLock, Exclusive), Release(WalLock)]
            && program[2..4] == [Acquire(MemLock, Exclusive), Release(MemLock)]
            && program[4..4] == [] && program[7..7] == []
            && program[4..7] == [Acquire(WalLock, Exclusive), Acquire(MemLock, Exclusive), Release(MemLock)]
            && program[7..8] == [Release(WalLock)]
            && program[8..10] == [Acquire(LevelsLock, Exclusive), Release(LevelsLock)]
  {
  }

  // ---------- the machine allows every interleaving that the locks allow ----------

  /** The compaction thread is thread 0, client `t` is thread t + 1. */
  function ThreadIds(s: Machine.System): (ids: set<nat>)
    ensures 0 in ids && forall k | k in ids && k != 0 :: k - 1 in s.clients
    ensures forall t | t in s.clients :: t + 1 in ids
  {
    {0} + set t | t in s.clients :: t + 1
  }

  /** Where a thread of the machine stands in its lock program between two events. */
  function StandsAt(s: Machine.System, k: nat): Thread {
    if k == 0 then Thread(Poll(true), if s.compactor == Machine.Resting then 2 else 3)
    else Thread(Write(true), Position(Machine.PcOf(s, k - 1)))
  }

  function LockView(s: Machine.System): (ts: Threads)
    ensures ts.Keys == ThreadIds(s) && forall k | k in ts :: ts[k] == StandsAt(s, k)
  {
    map k | k in ThreadIds(s) :: StandsAt(s, k)
  }

  /** The client stands where this event comes next, and what the event writes is within the limits of the formats
      and of the clock. */
  ghost predicate ComesNext(s: Machine.System, e: Machine.Event, c: Machine.Config, t: nat) {
    t in s.clients &&
    match e
    case Append(u, entry) => u == t && s.clients[t].Idle? && entry.Fits()
    case Insert(u) => u == t && s.clients[t].Logged?
    case ChooseName(u) => u == t && s.clients[t].Full? && Machine.Tick(s, c)
    case Swap(u) => u == t && s.clients[t].Named?
    case Rename(u) =>
      && u == t && s.clients[t].Swapped?
      && Format.FileFits(Mem.Entries(s.clients[t].table), c.sizing(|s.clients[t].table|))
    case Truncate(u) => u == t && s.clients[t].Renamed?
    case Register(u) => u == t && s.clients[t].Truncated?
    case _ => false
  }

  lemma StandsHolding(s: Machine.System, k: nat)
    ensures StandsAt(s, k).Valid()
    ensures StandsAt(s, k).Held() ==
            if k == 0 then (if s.compactor == Machine.Resting then map[] else map[LevelsLock := Exclusive])
            else if Machine.HoldsWal(Machine.PcOf(s, k - 1)) then map[WalLock := Exclusive] else map[]
  {
    hide Program, HeldAfter, Machine.PcOf, Machine.HoldsWal;
    if k == 0 {
      CompactorHolds(s.compactor == Machine.Resting);
      PollLength();
    } else {
      ClientHolds(Machine.PcOf(s, k - 1));
    }
  }

  lemma PollLength()
    ensures |Program(Poll(true))| == 4
  {
  }

  lemma ViewIsValid(s: Machine.System)
    ensures AllValid(LockView(s))
  {
    hide StandsAt, LockView, ThreadIds;
    forall k | k in LockView(s) ensures LockView(s)[k].Valid() {
      StandsHolding(s, k);
    }
  }

  /** The memtable lock is always free between two events. */
  lemma MemFree(s: Machine.System, k: nat)
    ensures AllValid(LockView(s)) && Free(LockView(s), k, MemLock, Exclusive)
  {
    hide StandsAt, LockView, ThreadIds, Program, HeldAfter, Machine.PcOf, Machine.HoldsWal;
    ViewIsValid(s);
    forall u | u in LockView(s) ensures MemLock !in LockView(s)[u].Held() {
      StandsHolding(s, u);
    }
  }

  /** The levels lock is free for a client if no compaction is at work. */
  lemma LevelsFreeIff(s: Machine.System, t: nat)
    requires t in s.clients
    ensures AllValid(LockView(s))
    ensures Free(LockView(s), t + 1, LevelsLock, Exclusive) <==> s.compactor == Machine.Resting
  {
    hide StandsAt, LockView, ThreadIds, Program, HeldAfter, Machine.PcOf, Machine.HoldsWal;
    ViewIsValid(s);
    forall u | u in LockView(s)
      ensures LevelsLock in LockView(s)[u].Held() <==> u == 0 && s.compactor != Machine.Resting
    {
      StandsHolding(s, u);
    }
    assert 0 in LockView(s);
  }

  /** The log lock is free for a client outside its flush if no client is between swap and truncation. */
  lemma WalFreeIff(s: Machine.System, t: nat)
    requires t in s.clients && !Machine.HoldsWal(s.clients[t])
    ensures AllValid(LockView(s))
    ensures Free(LockView(s), t + 1, WalLock, Exclusive) <==> Machine.WalFree(s)
  {
    hide StandsAt, LockView, ThreadIds, Program, HeldAfter, Machine.HoldsWal;
    ViewIsValid(s);
    forall u | u in LockView(s)
      ensures WalLock in LockView(s)[u].Held() <==> u != 0 && Machine.HoldsWal(Machine.PcOf(s, u - 1))
    {
      StandsHolding(s, u);
    }
    if u :| u in s.clients && Machine.HoldsWal(s.clients[u]) {
      assert u + 1 in LockView(s) && WalLock in LockView(s)[u + 1].Held();
    }
  }

  /** Every lock that the steps take is free for the thread. */
  ghost predicate AllFree(ts: Threads, k: nat, steps: seq<Instr>)
    requires AllValid(ts)
  {
    forall i | 0 <= i < |steps| && steps[i].Acquire? :: Free(ts, k, steps[i].lock, steps[i].mode)
  }

  lemma AllFreeAt(ts: Threads, k: nat, e: Machine.Event)
    requires AllValid(ts) && Free(ts, k, MemLock, Exclusive)
    ensures AllFree(ts, k, LockSteps(e)) <==>
            match e
            case Append(_, _) => Free(ts, k, WalLock, Exclusive)
            case Swap(_) => Free(ts, k, WalLock, Exclusive)
            case Register(_) => Free(ts, k, LevelsLock, Exclusive)
            case _ => true
  {
    hide Free, AllValid;
    if |LockSteps(e)| > 0 {
      var first := LockSteps(e)[0];
      assert first.Acquire? ==> (AllFree(ts, k, LockSteps(e)) ==> Free(ts, k, first.lock, first.mode));
    }
  }

  /** The machine is complete for the locks: the event that comes next for a client is enabled exactly if every lock
      it takes is free. */
  lemma EnabledIffFree(s: Machine.System, e: Machine.Event, c: Machine.Config, t: nat)
    requires ComesNext(s, e, c, t)
    ensures AllValid(LockView(s))
    ensures Machine.Enabled(s, e, c) <==> AllFree(LockView(s), t + 1, LockSteps(e))
  {
    hide StandsAt, LockView, ThreadIds, Program, HeldAfter, Machine.WalFree, Free, AllValid, AllFree;
    hide Machine.Tick, Machine.CanMerge, Machine.CanFail, Format.FileFits, Mem.Entries;
    ViewIsValid(s);
    MemFree(s, t + 1);
    LevelsFreeIff(s, t);
    AllFreeAt(LockView(s), t + 1, e);
    if e.Append? || e.Swap? {
      WalFreeIff(s, t);
    }
  }
}
