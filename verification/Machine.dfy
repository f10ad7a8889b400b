/** The engine as a machine of lock-level steps: client threads, the compaction thread, crashes. */
module Machine {
  import opened Wrappers
  import opened Bytes
  import opened Names
  import opened Storage
  import opened Tables
  import opened SsTableFormat
  import opened SsTableWriter
  import opened WalFormat
  import opened MemTable
  import opened Levels
  import opened Compaction
  import opened Wal
  import opened Stores

  type Tid = nat

  /** Where a client thread stands inside `set`, `delete` or the flush they end with. */
  datatype Pc =
    | Idle
    | Logged(entry: WalEntry)                    // appended to the log, not yet in the memtable
    | Full                                       // the memtable reached the threshold
    | Named(name: Name)                          // file name chosen, log lock not yet taken
    | Swapped(name: Name, table: KeyValues)      // memtable swapped out; holds the log lock
    | Renamed(name: Name, table: KeyValues)      // file revealed; holds the log lock
    | Truncated(name: Name, table: KeyValues)    // log truncated, lock released; not yet registered

  /** Where the compaction thread stands; it holds the levels lock unless it rests. */
  datatype Compactor =
    | Resting
    | Merged(inputs: seq<Name>, kept: seq<Name>, output: Name)
    | Deleted(kept: seq<Name>, output: Name)

  datatype System = System(
    mem: KeyValues, dir: Directory, l0: seq<Name>, l1: seq<Name>,
    clients: map<Tid, Pc>, compactor: Compactor, clock: nat,
    drained0: seq<Name>, drained1: seq<Name>,   // history: files failed compactions dropped from the lists
    logged: KeyValues,     // history: every operation whose append completed, applied in order
    inserted: KeyValues)   // history: every operation inserted into a memtable, applied in order

  /** Flush threshold, filter sizing, and the printed width of every timestamp. */
  datatype Config = Config(threshold: nat, sizing: Sizing, width: nat)

  datatype Event =
    | Append(t: Tid, entry: WalEntry)
    | Insert(t: Tid)
    | ChooseName(t: Tid)
    | Swap(t: Tid)
    | Scribble(target: Name, bytes: Bytes)   // a writer's unfinished output under a temporary name
    | Rename(t: Tid)
    | Truncate(t: Tid)
    | Register(t: Tid)
    | Merge
    | DeleteInputs
    | Publish
    | Fail                                   // a due compaction meets an empty table
    | Crash(gone: set<Name>, l0: seq<Name>, l1: seq<Name>)
        // the process dies, with these inputs of its compaction deleted, and the store is opened again

  predicate HoldsWal(pc: Pc) { pc.Swapped? || pc.Renamed? }

  /** No flush holds the log lock. */
  ghost predicate WalFree(s: System) {
    forall t | t in s.clients :: !HoldsWal(s.clients[t])
  }

  predicate At(s: System, t: Tid, pc: Pc) {
    t in s.clients && s.clients[t] == pc
  }

  function PcOf(s: System, t: Tid): Pc {
    if t in s.clients then s.clients[t] else Idle
  }

  ghost predicate Tick(s: System, c: Config) {
    |Decimal(s.clock)| == c.width
  }

  /** The inputs of the compaction that would start now. */
  function Inputs(s: System): seq<Name>
    requires s.l0 != [] && NonEmpty(s.dir, s.l0) && NonEmpty(s.dir, s.l1)
  {
    s.l0 + L1Part([s.l0, s.l1], s.dir, true)
  }

  // ---------- client steps ----------

  ghost predicate CanAppend(s: System, t: Tid, entry: WalEntry) {
    At(s, t, Idle) && WalFree(s) && entry.Fits()
  }

  function AfterAppend(s: System, t: Tid, entry: WalEntry): System {
    s.(dir := WithLogged(s.dir, entry), clients := s.clients[t := Logged(entry)], logged := Applied(s.logged, entry))
  }

  predicate CanInsert(s: System, t: Tid) { PcOf(s, t).Logged? }

  ghost function AfterInsert(s: System, t: Tid, c: Config): System
    requires CanInsert(s, t)
  {
    var entry := PcOf(s, t).entry;
    var mem := Applied(s.mem, entry);
    s.(mem := mem, inserted := Applied(s.inserted, entry),
       clients := s.clients[t := if MustFlush(mem, c.threshold) then Full else Idle])
  }

  ghost predicate CanChooseName(s: System, t: Tid, c: Config) { PcOf(s, t) == Full && Tick(s, c) }

  function AfterChooseName(s: System, t: Tid): System {
    s.(clients := s.clients[t := Named(LevelName(0, s.clock))], clock := s.clock + 1)
  }

  ghost predicate CanSwap(s: System, t: Tid) { PcOf(s, t).Named? && WalFree(s) }

  function AfterSwap(s: System, t: Tid): System
    requires PcOf(s, t).Named?
  {
    s.(clients := s.clients[t := Swapped(PcOf(s, t).name, s.mem)], mem := map[])
  }

  ghost predicate CanRename(s: System, t: Tid, c: Config) {
    PcOf(s, t).Swapped? && FileFits(Entries(PcOf(s, t).table), c.sizing(|PcOf(s, t).table|))
  }

  ghost function AfterRename(s: System, t: Tid, c: Config): System
    requires PcOf(s, t).Swapped?
  {
    var name, table := PcOf(s, t).name, PcOf(s, t).table;
    s.(dir := WithTable(s.dir, name, Entries(table), c.sizing(|table|)),
       clients := s.clients[t := Renamed(name, table)])
  }

  function AfterTruncate(s: System, t: Tid): System
    requires PcOf(s, t).Renamed?
  {
    s.(dir := WithoutLog(s.dir), clients := s.clients[t := Truncated(PcOf(s, t).name, PcOf(s, t).table)])
  }

  predicate CanRegister(s: System, t: Tid) { PcOf(s, t).Truncated? && s.compactor == Resting }

  function AfterRegister(s: System, t: Tid): System
    requires PcOf(s, t).Truncated?
  {
    s.(l0 := s.l0 + [PcOf(s, t).name], clients := s.clients[t := Idle])
  }

  // ---------- compaction steps ----------

  /** A compaction starts, and will not meet an empty table. */
  ghost predicate CanMerge(s: System, c: Config) {
    && s.compactor == Resting && |s.l0| >= L0_COMPACTION_THRESHOLD && Tick(s, c)
    && NonEmpty(s.dir, s.l0) && NonEmpty(s.dir, s.l1)
    && var runs := TablesAt(s.dir, Inputs(s));
       FileFits(Compacted(runs), c.sizing(TotalRecords(runs)))
  }

  function AfterMerge(s: System, c: Config): System
    requires s.l0 != [] && NonEmpty(s.dir, s.l0) && NonEmpty(s.dir, s.l1)
  {
    var output := LevelName(1, s.clock);
    s.(dir := WithOutput(s.dir, Inputs(s), output, c.sizing), clock := s.clock + 1,
       compactor := Merged(Inputs(s), L1Part([s.l0, s.l1], s.dir, false), output))
  }

  function AfterDelete(s: System): System
    requires s.compactor.Merged?
  {
    s.(dir := s.dir - SetOf(s.compactor.inputs), compactor := Deleted(s.compactor.kept, s.compactor.output))
  }

  function AfterPublish(s: System): System
    requires s.compactor.Deleted?
  {
    s.(l0 := [], l1 := s.compactor.kept + [s.compactor.output], compactor := Resting)
  }

  /** A compaction starts and will meet an empty table. */
  ghost predicate CanFail(s: System) {
    && s.compactor == Resting && |s.l0| >= L0_COMPACTION_THRESHOLD
    && !(NonEmpty(s.dir, s.l0) && NonEmpty(s.dir, s.l1))
  }

  /** It has drained level 0, and level 1 unless the empty table was in level 0; no file is touched. */
  function AfterFail(s: System): System {
    if NonEmpty(s.dir, s.l0)
    then s.(l0 := [], l1 := [], drained0 := s.drained0 + s.l0, drained1 := s.drained1 + s.l1)
    else s.(l0 := [], drained0 := s.drained0 + s.l0)
  }

  // ---------- crashes ----------

  /** The inputs that may be gone when the process dies: any part of those of the compaction at work. */
  predicate MayBeGone(s: System, gone: set<Name>) {
    if s.compactor.Merged? then gone <= SetOf(s.compactor.inputs) else gone == {}
  }

  function AfterScribble(s: System, target: Name, bytes: Bytes): System {
    s.(dir := s.dir[TmpName(target) := bytes])
  }

  function AfterCrash(s: System, l0: seq<Name>, l1: seq<Name>): System {
    s.(mem := MemOf(Replayed(LogOf(s.dir))), l0 := l0, l1 := l1, compactor := Resting,
       drained0 := [], drained1 := [], clients := map t | t in s.clients :: Idle)
  }

  // ---------- all steps ----------

  ghost predicate Enabled(s: System, e: Event, c: Config) {
    match e
    case Append(t, entry) => CanAppend(s, t, entry)
    case Insert(t) => CanInsert(s, t)
    case ChooseName(t) => CanChooseName(s, t, c)
    case Swap(t) => CanSwap(s, t)
    case Scribble(_, _) => true
    case Rename(t) => CanRename(s, t, c)
    case Truncate(t) => PcOf(s, t).Renamed?
    case Register(t) => CanRegister(s, t)
    case Merge => CanMerge(s, c)
    case DeleteInputs => s.compactor.Merged?
    case Publish => s.compactor.Deleted?
    case Fail => CanFail(s)
    case Crash(gone, l0, l1) => MayBeGone(s, gone) && IsDiscovered(s.dir - gone, [l0, l1])
  }

  ghost function Do(s: System, e: Event, c: Config): System
    requires Enabled(s, e, c)
  {
    match e
    case Append(t, entry) => AfterAppend(s, t, entry)
    case Insert(t) => AfterInsert(s, t, c)
    case ChooseName(t) => AfterChooseName(s, t)
    case Swap(t) => AfterSwap(s, t)
    case Scribble(target, bytes) => AfterScribble(s, target, bytes)
    case Rename(t) => AfterRename(s, t, c)
    case Truncate(t) => AfterTruncate(s, t)
    case Register(t) => AfterRegister(s, t)
    case Merge => AfterMerge(s, c)
    case DeleteInputs => AfterDelete(s)
    case Publish => AfterPublish(s)
    case Fail => AfterFail(s)
    case Crash(gone, l0, l1) => AfterCrash(s.(dir := s.dir - gone), l0, l1)
  }

  /** An empty store, just opened, with these client threads. */
  ghost predicate Initial(s: System, threads: set<Tid>) {
    && s.mem == map[] && s.dir == map[WAL_NAME := []] && s.l0 == [] && s.l1 == []
    && s.drained0 == [] && s.drained1 == []
    && s.clients == (map t | t in threads :: Idle) && s.compactor == Resting
    && s.logged == map[] && s.inserted == map[]
  }

  /** `states` is the run that `events` produce. */
  ghost predicate IsRun(states: seq<System>, events: seq<Event>, c: Config) {
    && |states| == |events| + 1
    && forall i | 0 <= i < |events| :: Enabled(states[i], events[i], c) && states[i + 1] == Do(states[i], events[i], c)
  }

  /** What `get` returns when it takes both read locks in this state. */
  function Get(s: System, key: Bytes): Option<Bytes> {
    Read(Store(s.mem, s.dir, [s.l0, s.l1]), key)
  }

  /** What `get` returns as written: it looks into the memtable in one state and, if the key is not there, into
      the files in a later one. */
  function GetInTwoLooks(first: System, second: System, key: Bytes): Option<Bytes> {
    if key in first.mem then Live(Some(first.mem[key]))
    else Live(FirstHit(TablesAt(second.dir, ReadOrder([second.l0, second.l1])), key))
  }

  // ---------- the operations of one client are runs of the machine ----------

  ghost function AsStore(s: System): Store {
    Store(s.mem, s.dir, [s.l0, s.l1])
  }

  /** The events of one `set` or `delete` by client `t`. */
  ghost function OperationEvents(s: System, t: Tid, entry: WalEntry, c: Config): seq<Event> {
    if MustFlush(Applied(s.mem, entry), c.threshold)
    then [Append(t, entry), Insert(t), ChooseName(t), Swap(t), Rename(t), Truncate(t), Register(t)]
    else [Append(t, entry), Insert(t)]
  }

  lemma RunCons(s: System, e: Event, states: seq<System>, events: seq<Event>, c: Config)
    requires IsRun(states, events, c) && Enabled(s, e, c) && states[0] == Do(s, e, c)
    ensures IsRun([s] + states, [e] + events, c)
  {
    hide Enabled, Do;
    var all, es := [s] + states, [e] + events;
    forall i | 0 <= i < |es| ensures Enabled(all[i], es[i], c) && all[i + 1] == Do(all[i], es[i], c) {
      if i > 0 {
        assert es[i] == events[i - 1] && all[i] == states[i - 1] && all[i + 1] == states[i];
      }
    }
  }

  lemma FlushIsARun(s: System, t: Tid, c: Config) returns (states: seq<System>)
    requires s.clients == map[t := Full] && s.compactor == Resting && Tick(s, c)
    requires FileFits(Entries(s.mem), c.sizing(|s.mem|))
    ensures IsRun(states, [ChooseName(t), Swap(t), Rename(t), Truncate(t), Register(t)], c)
    ensures |states| == 6 && states[0] == s
    ensures var last := states[|states| - 1];
            && AsStore(last) == Flushed(AsStore(s), s.clock, c.sizing)
            && last.clients == map[t := Idle] && last.logged == s.logged
            && last.compactor == Resting && last.clock == s.clock + 1
  {
    hide Entries, LevelName, FileFits, IsRun, Enabled, Do, WithTable, WithoutLog;
    var s1, s2 := NameThenSwap(s, t, c);
    var s3, s4, s5 := RenameThenRegister(s2, t, c);
    SixStates(s, s1, s2, s3, s4, s5);
    FiveEvents(ChooseName(t), Swap(t), Rename(t), Truncate(t), Register(t));
    NoSteps(s5, c);
    RunCons(s4, Register(t), [s5], [], c);
    RunCons(s3, Truncate(t), [s4, s5], [Register(t)], c);
    RunCons(s2, Rename(t), [s3, s4, s5], [Truncate(t), Register(t)], c);
    RunCons(s1, Swap(t), [s2, s3, s4, s5], [Rename(t), Truncate(t), Register(t)], c);
    RunCons(s, ChooseName(t), [s1, s2, s3, s4, s5], [Swap(t), Rename(t), Truncate(t), Register(t)], c);
    states := [s, s1, s2, s3, s4, s5];
  }

  lemma SixStates(a: System, b: System, c: System, d: System, e: System, f: System)
    ensures [a] + [b, c, d, e, f] == [a, b, c, d, e, f] && [b] + [c, d, e, f] == [b, c, d, e, f]
    ensures [c] + [d, e, f] == [c, d, e, f] && [d] + [e, f] == [d, e, f] && [e] + [f] == [e, f]
  {
  }

  lemma FiveEvents(a: Event, b: Event, c: Event, d: Event, e: Event)
    ensures [a] + [b, c, d, e] == [a, b, c, d, e] && [b] + [c, d, e] == [b, c, d, e]
    ensures [c] + [d, e] == [c, d, e] && [d] + [e] == [d, e] && [e] + [] == [e]
  {
  }

  lemma NameThenSwap(s: System, t: Tid, c: Config) returns (s1: System, s2: System)
    requires s.clients == map[t := Full] && Tick(s, c)
    ensures Enabled(s, ChooseName(t), c) && s1 == Do(s, ChooseName(t), c)
    ensures Enabled(s1, Swap(t), c) && s2 == Do(s1, Swap(t), c)
    ensures s2 == s.(mem := map[], clock := s.clock + 1, clients := map[t := Swapped(LevelName(0, s.clock), s.mem)])
  {
    hide LevelName;
    s1 := AfterChooseName(s, t);
    assert s1.clients == map[t := Named(LevelName(0, s.clock))];
    s2 := AfterSwap(s1, t);
  }

  /** The second half of a flush, from the swapped-out memtable on. */
  lemma RenameThenRegister(s: System, t: Tid, c: Config) returns (s1: System, s2: System, s3: System)
    requires PcOf(s, t).Swapped? && s.clients == map[t := PcOf(s, t)] && s.compactor == Resting
    requires FileFits(Entries(PcOf(s, t).table), c.sizing(|PcOf(s, t).table|))
    ensures Enabled(s, Rename(t), c) && s1 == Do(s, Rename(t), c)
    ensures Enabled(s1, Truncate(t), c) && s2 == Do(s1, Truncate(t), c)
    ensures Enabled(s2, Register(t), c) && s3 == Do(s2, Register(t), c)
    ensures var name, table := PcOf(s, t).name, PcOf(s, t).table;
            s3 == s.(dir := WithoutLog(WithTable(s.dir, name, Entries(table), c.sizing(|table|))),
                     l0 := s.l0 + [name], clients := map[t := Idle])
  {
    hide Entries, FileFits, WithTable, WithoutLog;
    s1 := AfterRename(s, t, c);
    s2 := AfterTruncate(s1, t);
    s3 := AfterRegister(s2, t);
  }

  /** Run alone, the lock-level steps of an operation add up to the operation of the engine class. */
  lemma {:induction false} OperationIsARun(s: System, t: Tid, entry: WalEntry, c: Config) returns (states: seq<System>)
    requires s.clients == map[t := Idle] && s.compactor == Resting && entry.Fits() && Tick(s, c)
    requires var mem := Applied(s.mem, entry); FileFits(Entries(mem), c.sizing(|mem|))
    ensures IsRun(states, OperationEvents(s, t, entry, c), c) && states[0] == s
    ensures var last := states[|states| - 1];
            && AsStore(last) == Written(AsStore(s), entry, c.threshold, s.clock, c.sizing)
            && last.clients == s.clients && last.logged == Applied(s.logged, entry) && last.compactor == Resting
            && last.clock == if MustFlush(Applied(s.mem, entry), c.threshold) then s.clock + 1 else s.clock
  {
    hide Entries, FileFits, MustFlush, Flushed, IsRun, Enabled, Do, WithLogged, Applied, AfterAppend, AfterInsert;
    var s1, s2 := AppendThenInsert(s, t, entry, c);
    var rest: seq<System>, events: seq<Event> := [s2], [];
    if MustFlush(Applied(s.mem, entry), c.threshold) {
      rest := FlushIsARun(s2, t, c);
      events := [ChooseName(t), Swap(t), Rename(t), Truncate(t), Register(t)];
    } else {
      NoSteps(s2, c);
    }
    RunCons(s1, Insert(t), rest, events, c);
    RunCons(s, Append(t, entry), [s1] + rest, [Insert(t)] + events, c);
    states := [s] + ([s1] + rest);
    assert [Append(t, entry)] + ([Insert(t)] + events) == OperationEvents(s, t, entry, c);
    assert |states| == |rest| + 2 && states[|states| - 1] == rest[|rest| - 1];
  }

  lemma AppendThenInsert(s: System, t: Tid, entry: WalEntry, c: Config) returns (s1: System, s2: System)
    requires s.clients == map[t := Idle] && entry.Fits()
    ensures Enabled(s, Append(t, entry), c) && s1 == Do(s, Append(t, entry), c)
    ensures Enabled(s1, Insert(t), c) && s2 == Do(s1, Insert(t), c)
    ensures s2.mem == Applied(s.mem, entry) && s2.dir == WithLogged(s.dir, entry)
    ensures s2.l0 == s.l0 && s2.l1 == s.l1 && s2.compactor == s.compactor && s2.clock == s.clock
    ensures s2.clients == map[t := if MustFlush(s2.mem, c.threshold) then Full else Idle]
    ensures s2.logged == Applied(s.logged, entry)
  {
    hide MustFlush, WithLogged, Applied;
    s1 := AfterAppend(s, t, entry);
    s2 := AfterInsert(s1, t, c);
  }

  lemma NoSteps(s: System, c: Config)
    ensures IsRun([s], [], c)
  {
  }

  /** The same for the compaction thread: its three steps add up to one call of `compact`. */
  lemma CompactionIsARun(s: System, c: Config) returns (states: seq<System>)
    requires s.compactor == Resting && |s.l0| >= 4 && Tick(s, c) && NonEmpty(s.dir, s.l0) && NonEmpty(s.dir, s.l1)
    requires var runs := TablesAt(s.dir, Inputs(s)); FileFits(Compacted(runs), c.sizing(TotalRecords(runs)))
    ensures IsRun(states, [Merge, DeleteInputs, Publish], c) && |states| == 4 && states[0] == s
    ensures var last, o := states[3], CompactionOutcome([s.l0, s.l1], s.dir, s.clock, c.sizing);
            && o.result == Ok(()) && last.dir == o.dir && [last.l0, last.l1] == o.levels
            && last.compactor == Resting
            && last == s.(dir := last.dir, l0 := last.l0, l1 := last.l1, clock := s.clock + 1)
  {
    hide WithOutput, LevelName, NonEmpty, IsRun, Enabled, Do, TablesAt, L1Part, FileFits, SetOf, CompactionOutcome;
    var s1, s2, s3 := MergeToPublish(s, c);
    OutcomeOfMerge(s, c);
    NoSteps(s3, c);
    FourStates(s, s1, s2, s3);
    ThreeEvents(Merge, DeleteInputs, Publish);
    RunCons(s2, Publish, [s3], [], c);
    RunCons(s1, DeleteInputs, [s2, s3], [Publish], c);
    RunCons(s, Merge, [s1, s2, s3], [DeleteInputs, Publish], c);
    states := [s, s1, s2, s3];
  }

  lemma MergeGuard(s: System, c: Config)
    requires CanMerge(s, c)
    ensures s.compactor == Resting && |s.l0| >= 4 && Tick(s, c) && NonEmpty(s.dir, s.l0) && NonEmpty(s.dir, s.l1)
    ensures var runs := TablesAt(s.dir, Inputs(s)); FileFits(Compacted(runs), c.sizing(TotalRecords(runs)))
  {
    hide NonEmpty, TablesAt, FileFits, Compacted, Inputs;
  }

  lemma FourStates(a: System, b: System, c: System, d: System)
    ensures [a] + [b, c, d] == [a, b, c, d] && [b] + [c, d] == [b, c, d] && [c] + [d] == [c, d]
  {
  }

  lemma ThreeEvents(a: Event, b: Event, c: Event)
    ensures [a] + [b, c] == [a, b, c] && [b] + [c] == [b, c] && [c] + [] == [c]
  {
  }

  lemma MergeToPublish(s: System, c: Config) returns (s1: System, s2: System, s3: System)
    requires CanMerge(s, c)
    ensures Enabled(s, Merge, c) && s1 == Do(s, Merge, c)
    ensures Enabled(s1, DeleteInputs, c) && s2 == Do(s1, DeleteInputs, c)
    ensures Enabled(s2, Publish, c) && s3 == Do(s2, Publish, c)
    ensures s3 == s.(dir := WithOutput(s.dir, Inputs(s), LevelName(1, s.clock), c.sizing) - SetOf(Inputs(s)),
                     l0 := [], l1 := L1Part([s.l0, s.l1], s.dir, false) + [LevelName(1, s.clock)], clock := s.clock + 1)
  {
    hide WithOutput, LevelName, NonEmpty, TablesAt, L1Part, FileFits, Decimal, SetOf, Inputs, Compacted;
    hide AfterAppend, AfterInsert, AfterChooseName, AfterSwap, AfterScribble, AfterRename, AfterTruncate, AfterRegister;
    hide AfterCrash, AfterFail, CanFail, MayBeGone, CanAppend, CanInsert, CanChooseName, CanSwap, CanRename;
    hide CanRegister, IsDiscovered, PcOf;
    s1 := AfterMerge(s, c);
    s2 := AfterDelete(s1);
    s3 := AfterPublish(s2);
  }

  lemma OutcomeOfMerge(s: System, c: Config)
    requires CanMerge(s, c)
    ensures CompactionOutcome([s.l0, s.l1], s.dir, s.clock, c.sizing) ==
            Outcome([[], L1Part([s.l0, s.l1], s.dir, false) + [LevelName(1, s.clock)]],
                    WithOutput(s.dir, Inputs(s), LevelName(1, s.clock), c.sizing) - SetOf(Inputs(s)), Ok(()))
  {
    hide WithOutput, LevelName, NonEmpty, TablesAt, L1Part, FileFits, Decimal, SetOf;
    var kept := L1Part([s.l0, s.l1], s.dir, false) + [LevelName(1, s.clock)];
    assert [s.l0, s.l1][0 := []][1 := kept] == [[], kept];
  }

  /** A failing step is one call of `compact` that returns an error. */
  lemma FailureIsAStep(s: System, c: Config)
    requires s.compactor == Resting && |s.l0| >= 4 && !(NonEmpty(s.dir, s.l0) && NonEmpty(s.dir, s.l1))
    ensures var o := CompactionOutcome([s.l0, s.l1], s.dir, s.clock, c.sizing);
            && Enabled(s, Fail, c)
            && o.result.Err? && o.dir == Do(s, Fail, c).dir && o.levels == [Do(s, Fail, c).l0, Do(s, Fail, c).l1]
  {
    hide NonEmpty, WithOutput, L1Part, L0Error, L1Error, TablesAt, LevelName;
    assert [s.l0, s.l1][0 := []] == [[], s.l1] && [s.l0, s.l1][0 := []][1 := []] == [[], []];
  }
}
