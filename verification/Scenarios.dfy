/** Concrete runs of the machine that reach the states in which it loses data. */
module Scenarios {
  import opened Wrappers
  import opened Bytes
  import opened Names
  import opened Storage
  import opened Tables
  import opened Bloom
  import opened SsTableFormat
  import opened SsTableReader
  import opened WalFormat
  import opened MemTable
  import opened Levels
  import opened Wal
  import opened Stores
  import opened Machine
  import opened Durable
  import opened Conservation
  import opened Survival
  import opened LevelOne
  import opened LevelTables

  // ---------- small files ----------

  const KEY: Bytes := [7]

  function One(value: Bytes): Table {
    [Record(KEY, value)]
  }

  function NoFilter(): FilterShape {
    assert Pow256(8) > 0;
    Shape(0, 0)
  }

  /** A file of at most two short records fits its fields. */
  lemma SmallFileFits(t: Table)
    requires |t| <= 2 && forall r | r in t :: |r.key| < 20 && |r.value| < 20
    ensures FileFits(t, NoFilter())
  {
    hide ToLe, Footer, EncodeRecord, FilterOf, Index, Data, EncodeIndex;
    var s := NoFilter();
    assert Pow256(4) == 0x1_0000_0000 && Pow256(8) > 0x1_0000_0000;
    assert |FilterBytes(t, s)| == 16;
    SmallData(t);
    SmallIndex(t);
    forall i | 0 <= i < |t| ensures RecordFits(t[i]) {
      assert t[i] in t;
    }
  }

  lemma SmallData(t: Table)
    requires |t| <= 2 && forall r | r in t :: |r.key| < 20 && |r.value| < 20
    ensures |Data(t)| < 100
  {
    hide EncodeRecord, Data;
    if |t| == 0 {
      assert Data([]) == [] by { NoData(); }
    } else if |t| == 1 {
      assert t == [t[0]] && t[0] in t;
      DataOne(t[0]);
    } else {
      assert t == [t[0]] + [t[1]] && t[0] in t && t[1] in t;
      DataConcat([t[0]], [t[1]]);
      DataOne(t[0]);
      DataOne(t[1]);
    }
  }

  lemma NoData()
    ensures Data([]) == []
  {
  }

  lemma SmallIndex(t: Table)
    requires |t| <= 2 && forall r | r in t :: |r.key| < 20 && |r.value| < 20
    ensures |EncodeIndex(Index(t))| < 100
  {
    hide ToLe, Data, Marks;
    SmallData(t);
    IndexIsSparse(t);
    var index := Index(t);
    if index != [] {
      assert t[Marks(t)[0]] in t && index[0].0 == t[Marks(t)[0]].key;
      assert index[1..] == [];
    }
  }

  lemma OneEntry(key: Bytes, value: Bytes)
    ensures Entries(map[key := value]) == [Record(key, value)]
  {
    hide Less;
    LessIsStrictTotal();
    var m := map[key := value];
    assert IsMinKey(key, m);
    EntriesStep(m, key);
    assert m - {key} == map[];
    NoEntries();
  }

  // ---------- runs ----------

  /** The states of one run followed by another. */
  function Joined(a: seq<System>, b: seq<System>): seq<System> {
    if b == [] then a else a + b[1..]
  }

  lemma RunsJoin(a: seq<System>, ea: seq<Event>, b: seq<System>, eb: seq<Event>, c: Config)
    requires IsRun(a, ea, c) && IsRun(b, eb, c) && a[|a| - 1] == b[0]
    ensures var all := Joined(a, b);
            && IsRun(all, ea + eb, c) && |all| == |a| + |b| - 1
            && all[0] == a[0] && all[|ea|] == b[0] && all[|all| - 1] == b[|b| - 1]
  {
    hide Enabled, Do;
    var all, es := Joined(a, b), ea + eb;
    forall i | 0 <= i < |es| ensures Enabled(all[i], es[i], c) && all[i + 1] == Do(all[i], es[i], c) {
      if i < |ea| {
        assert all[i] == a[i] && all[i + 1] == a[i + 1] && es[i] == ea[i];
      } else {
        var k := i - |ea|;
        assert all[i] == b[k] && all[i + 1] == b[k + 1] && es[i] == eb[k];
      }
    }
  }

  function EmptyStore(threads: set<Tid>): System {
    System(map[], map[WAL_NAME := []], [], [], map t | t in threads :: Idle, Resting, 10, [], [], map[], map[])
  }

  // ---------- steps of one client among several ----------

  /** `after` is what the event makes of `before`. */
  ghost predicate Steps(before: System, e: Event, after: System, c: Config) {
    Enabled(before, e, c) && after == Do(before, e, c)
  }

  lemma AppendSteps(s: System, t: Tid, entry: WalEntry, c: Config)
    requires CanAppend(s, t, entry)
    ensures Steps(s, Append(t, entry), AfterAppend(s, t, entry), c)
  {
    hide CanAppend, AfterAppend;
  }

  lemma InsertSteps(s: System, t: Tid, c: Config)
    requires CanInsert(s, t)
    ensures Steps(s, Event.Insert(t), AfterInsert(s, t, c), c)
  {
    hide CanInsert, AfterInsert;
  }

  lemma FlushSteps(s: System, t: Tid, c: Config)
    ensures CanChooseName(s, t, c) ==> Steps(s, ChooseName(t), AfterChooseName(s, t), c)
    ensures CanSwap(s, t) ==> Steps(s, Swap(t), AfterSwap(s, t), c)
    ensures CanRename(s, t, c) ==> Steps(s, Rename(t), AfterRename(s, t, c), c)
    ensures PcOf(s, t).Renamed? ==> Steps(s, Truncate(t), AfterTruncate(s, t), c)
  {
    hide CanChooseName, AfterChooseName, AfterSwap, AfterRename, AfterTruncate, FileFits, WalFree;
  }

  lemma StepsAreARun(states: seq<System>, events: seq<Event>, c: Config)
    requires |states| == |events| + 1
    requires forall i | 0 <= i < |events| :: Steps(states[i], events[i], states[i + 1], c)
    ensures IsRun(states, events, c)
  {
    hide Enabled, Do;
    forall i | 0 <= i < |events|
      ensures Enabled(states[i], events[i], c) && states[i + 1] == Do(states[i], events[i], c)
    {
      assert Steps(states[i], events[i], states[i + 1], c);
    }
  }

  lemma OneTableBytes(key: Bytes, value: Bytes)
    ensures TableBytes([Record(key, value)]) == |key| + |value|
  {
    assert [Record(key, value)][1..] == [];
  }

  /** A client appends and inserts one entry while no flush holds the log lock. */
  lemma PutSteps(s: System, t: Tid, entry: WalEntry, c: Config) returns (states: seq<System>, last: System)
    requires At(s, t, Idle) && WalFree(s) && entry.Fits()
    ensures IsRun(states, [Append(t, entry), Event.Insert(t)], c) && states[0] == s && states[|states| - 1] == last
    ensures last.mem == Applied(s.mem, entry) && last.inserted == Applied(s.inserted, entry)
    ensures last.clients == s.clients[t := if MustFlush(last.mem, c.threshold) then Full else Idle]
    ensures last.l0 == s.l0 && last.l1 == s.l1 && last.compactor == s.compactor && last.clock == s.clock
    ensures last.dir.Keys == s.dir.Keys + {WAL_NAME}
  {
    hide Enabled, Do, MustFlush, Applied, WithLogged, WalFree;
    assert WithLogged(s.dir, entry).Keys == s.dir.Keys + {WAL_NAME} by { LoggedNames(s.dir, entry); }
    AppendSteps(s, t, entry, c);
    var mid := AfterAppend(s, t, entry);
    InsertSteps(mid, t, c);
    last := AfterInsert(mid, t, c);
    states := [s, mid, last];
    assert last.clients == s.clients[t := if MustFlush(last.mem, c.threshold) then Full else Idle];
  }

  lemma LoggedNames(dir: Directory, entry: WalEntry)
    ensures WithLogged(dir, entry).Keys == dir.Keys + {WAL_NAME}
  {
    hide Encoding, LogOf;
  }

  function FlushEvents(t: Tid): seq<Event> {
    [ChooseName(t), Swap(t), Rename(t), Truncate(t)]
  }

  /** A client whose insert filled the memtable flushes it, up to the truncation of the log. */
  lemma FlushToTruncation(s: System, t: Tid, c: Config) returns (states: seq<System>, last: System)
    requires At(s, t, Full) && WalFree(s) && Tick(s, c) && FileFits(Entries(s.mem), c.sizing(|s.mem|))
    ensures IsRun(states, FlushEvents(t), c) && states[0] == s && states[|states| - 1] == last
    ensures last.mem == map[] && last.clients == s.clients[t := Truncated(LevelName(0, s.clock), s.mem)]
    ensures last.l0 == s.l0 && last.l1 == s.l1 && last.compactor == s.compactor && last.clock == s.clock + 1
    ensures last.inserted == s.inserted
  {
    hide Enabled, Do, LevelName, Entries, FileFits, WithTable, WithoutLog, Tick, CanChooseName, CanSwap, CanRename;
    var s1 := AfterChooseName(s, t);
    FlushSteps(s, t, c);
    NameTaken(s, t, c);
    var s2 := AfterSwap(s1, t);
    FlushSteps(s1, t, c);
    var s3 := AfterRename(s2, t, c);
    FlushSteps(s2, t, c);
    last := AfterTruncate(s3, t);
    FlushSteps(s3, t, c);
    states := [s, s1, s2, s3, last];
    assert last.clients == s.clients[t := Truncated(LevelName(0, s.clock), s.mem)];
    FourSteps(s, s1, s2, s3, last, t, c);
  }

  lemma NameTaken(s: System, t: Tid, c: Config)
    requires At(s, t, Full) && WalFree(s) && Tick(s, c) && FileFits(Entries(s.mem), c.sizing(|s.mem|))
    ensures CanChooseName(s, t, c) && CanSwap(AfterChooseName(s, t), t)
    ensures CanRename(AfterSwap(AfterChooseName(s, t), t), t, c)
  {
    hide LevelName, Entries, FileFits, Tick;
  }

  lemma FourSteps(s: System, s1: System, s2: System, s3: System, s4: System, t: Tid, c: Config)
    requires Steps(s, ChooseName(t), s1, c) && Steps(s1, Swap(t), s2, c)
    requires Steps(s2, Rename(t), s3, c) && Steps(s3, Truncate(t), s4, c)
    ensures IsRun([s, s1, s2, s3, s4], FlushEvents(t), c)
  {
    hide Steps;
    StepsAreARun([s, s1, s2, s3, s4], FlushEvents(t), c);
  }

  // ---------- a write lost between two clients ----------

  /** Three bytes fill the memtable. */
  function RaceConfig(): Config {
    Config(3, (n: nat) => NoFilter(), 2)
  }

  const SHORT: WalEntry := Put(KEY, [1])
  const LONG: WalEntry := Put([9], [3, 3, 3])

  lemma ShortEntriesFit()
    ensures SHORT.Fits() && LONG.Fits()
  {
    assert Pow256(4) == 0x1_0000_0000;
  }

  /** Thread 1 logs a put of one byte. Thread 0 logs and inserts one that fills the memtable, and swaps it. Thread
      1 inserts, and is done. Thread 0 reveals its file and truncates the log. */
  function RaceEvents(): seq<Event> {
    [Append(1, SHORT)] + [Append(0, LONG), Event.Insert(0)] + [ChooseName(0), Swap(0), Event.Insert(1), Rename(0),
        Truncate(0)]
  }

  /** The state before the swap: one write logged and not inserted, the memtable full, no file yet. */
  lemma RaceBegins() returns (a: seq<System>, b: seq<System>, full: System)
    ensures IsRun(a, [Append(1, SHORT)], RaceConfig()) && IsRun(b, [Append(0, LONG), Event.Insert(0)], RaceConfig())
    ensures a[0] == EmptyStore({0, 1}) && a[|a| - 1] == b[0] && b[|b| - 1] == full
    ensures full.mem == map[LONG.key := LONG.value] && full.inserted == full.mem && full.dir.Keys == {WAL_NAME}
    ensures full.l0 == [] && full.l1 == [] && full.compactor == Resting && full.clock == 10
    ensures full.clients == map[0 := Full, 1 := Logged(SHORT)]
  {
    hide Enabled, Do, Entries, WithLogged;
    ShortEntriesFit();
    OneEntry(LONG.key, LONG.value);
    OneTableBytes(LONG.key, LONG.value);
    var s0 := EmptyStore({0, 1});
    AppendSteps(s0, 1, SHORT, RaceConfig());
    LoggedNames(s0.dir, SHORT);
    var s1 := AfterAppend(s0, 1, SHORT);
    a := [s0, s1];
    b, full := PutSteps(s1, 0, LONG, RaceConfig());
  }

  /** The rest of the run, in terms of the state before the swap. */
  lemma RaceEnds(full: System) returns (d: seq<System>)
    requires full.mem == map[LONG.key := LONG.value] && full.clients == map[0 := Full, 1 := Logged(SHORT)]
    requires full.l0 == [] && full.l1 == [] && full.compactor == Resting && full.clock == 10
    requires full.dir.Keys == {WAL_NAME} && full.inserted == full.mem
    ensures IsRun(d, [ChooseName(0), Swap(0), Event.Insert(1), Rename(0), Truncate(0)], RaceConfig()) && d[0] == full
    ensures |d| == 6 && d[1].mem == full.mem && d[1].dir == full.dir && 1 in d[1].clients &&
            d[1].clients[1] == Logged(SHORT)
    ensures d[2].mem == map[] && d[2].l0 == [] && d[2].l1 == [] && d[2].inserted == full.inserted
    ensures d[2].compactor == Resting
    ensures d[5].mem == map[KEY := [1]] && PcOf(d[5], 1) == Idle && d[5].dir.Keys == {WAL_NAME, LevelName(0, 10)}
  {
    hide LevelName, Entries, FileFits, Steps, IsRun;
    OneEntry(LONG.key, LONG.value);
    SmallFileFits([Record(LONG.key, LONG.value)]);
    var s1, s2 := RaceSwaps(full);
    var s3 := RaceInserts(s2);
    var s4, s5 := RaceReveals(s3, full.mem);
    d := [full, s1, s2, s3, s4, s5];
    StepsAreARun(d, [ChooseName(0), Swap(0), Event.Insert(1), Rename(0), Truncate(0)], RaceConfig());
  }

  lemma RaceSwaps(full: System) returns (s1: System, s2: System)
    requires full.clients == map[0 := Full, 1 := Logged(SHORT)] && full.clock == 10
    ensures Steps(full, ChooseName(0), s1, RaceConfig()) && Steps(s1, Swap(0), s2, RaceConfig())
    ensures s1.mem == full.mem && s1.dir == full.dir &&
            s1.clients == map[0 := Named(LevelName(0, 10)), 1 := Logged(SHORT)]
    ensures s2.mem == map[] && s2.clients == map[0 := Swapped(LevelName(0, 10), full.mem), 1 := Logged(SHORT)]
    ensures s2.dir == full.dir && s2.l0 == full.l0 && s2.l1 == full.l1 && s2.compactor == full.compactor
    ensures s2.inserted == full.inserted
  {
    hide Steps, AfterChooseName, AfterSwap, LevelName;
    s1 := RaceNames(full);
    RaceSwapped(s1);
    s2 := AfterSwap(s1, 0);
  }

  lemma RaceNames(full: System) returns (s1: System)
    requires full.clients == map[0 := Full, 1 := Logged(SHORT)] && full.clock == 10
    ensures Steps(full, ChooseName(0), s1, RaceConfig())
    ensures s1 == full.(clock := 11, clients := map[0 := Named(LevelName(0, 10)), 1 := Logged(SHORT)])
  {
    hide LevelName, Steps, Decimal;
    assert Tick(full, RaceConfig()) by { TenPrints(); }
    FlushSteps(full, 0, RaceConfig());
    s1 := AfterChooseName(full, 0);
    assert s1.clients == map[0 := Named(LevelName(0, 10)), 1 := Logged(SHORT)];
  }

  lemma RaceSwapped(s: System)
    requires s.clients == map[0 := Named(LevelName(0, 10)), 1 := Logged(SHORT)]
    ensures PcOf(s, 0).Named? && Steps(s, Swap(0), AfterSwap(s, 0), RaceConfig())
    ensures AfterSwap(s, 0) ==
            s.(mem := map[], clients := map[0 := Swapped(LevelName(0, 10), s.mem), 1 := Logged(SHORT)])
  {
    hide LevelName, Steps;
    FlushSteps(s, 0, RaceConfig());
  }

  lemma RaceInserts(s: System) returns (after: System)
    requires s.mem == map[] && 0 in s.clients && s.clients == map[0 := s.clients[0], 1 := Logged(SHORT)]
    ensures Steps(s, Event.Insert(1), after, RaceConfig())
    ensures after.mem == map[KEY := [1]] && after.clients == map[0 := s.clients[0], 1 := Idle] && after.dir == s.dir
  {
    hide Entries, Steps;
    OneEntry(KEY, [1]);
    OneTableBytes(KEY, [1]);
    InsertSteps(s, 1, RaceConfig());
    after := AfterInsert(s, 1, RaceConfig());
  }

  lemma TenPrints()
    ensures |Decimal(10)| == 2
  {
  }

  lemma RaceReveals(s: System, table: KeyValues) returns (s4: System, s5: System)
    requires s.clients == map[0 := Swapped(LevelName(0, 10), table), 1 := Idle] && s.dir.Keys == {WAL_NAME}
    requires FileFits(Entries(table), NoFilter())
    ensures Steps(s, Rename(0), s4, RaceConfig()) && Steps(s4, Truncate(0), s5, RaceConfig())
    ensures s5.mem == s.mem && PcOf(s5, 1) == Idle && s5.dir.Keys == {WAL_NAME, LevelName(0, 10)}
  {
    hide LevelName, Entries, FileFits, Steps, FileBytes, TmpName;
    TmpAndWalAreSkipped(LevelName(0, 10));
    FlushSteps(s, 0, RaceConfig());
    s4 := AfterRename(s, 0, RaceConfig());
    FlushSteps(s4, 0, RaceConfig());
    s5 := AfterTruncate(s4, 0);
  }

  /** After the truncation a restart finds the file of the flush. */
  lemma RaceFiles(dir: Directory)
    requires dir.Keys == {WAL_NAME, LevelName(0, 10)}
    ensures IsDiscovered(dir, [[LevelName(0, 10)], []])
  {
    hide LevelName, LevelOf;
    WalIsSkipped();
    LevelOfLevelName(0, 10);
    assert forall n, i: nat | FiledUnder(dir, n, i) :: n == LevelName(0, 10) && i == 0;
    DiscoveredPair(dir, [LevelName(0, 10)], []);
  }

  /** The race in full. With thread 0 between swap and registration, its record is inserted and a read misses it.
      When thread 0 has truncated the log, the put of thread 1 is complete and readable, and a crash loses it: the
      swap was not guarded. */
  lemma RaceLosesAWrite() returns (states: seq<System>)
    ensures IsRun(states, RaceEvents(), RaceConfig()) && Initial(states[0], {0, 1}) && |states| == 9
    ensures var s := states[5];
            s.compactor == Resting && LONG.key in s.inserted && Get(s, LONG.key) == None
    ensures var s, w := states[8], Write(KEY, [1]);
            && OnlyWritten(RaceEvents(), w) && !Guarded(states[4], Swap(0), w)
            && PcOf(s, 1) == Idle && Get(s, KEY) == Some([1])
            && IsDiscovered(s.dir, [[LevelName(0, 10)], []])
            && Get(AfterCrash(s, [LevelName(0, 10)], []), KEY) == None
  {
    hide Enabled, Do, Get, IsDiscovered, Guarded, AfterCrash, LevelName;
    var w := Write(KEY, [1]);
    var a, b, full := RaceBegins();
    var d := RaceEnds(full);
    RunsJoin(a, [Append(1, SHORT)], b, [Append(0, LONG), Event.Insert(0)], RaceConfig());
    RunsJoin(Joined(a, b), [Append(1, SHORT)] + [Append(0, LONG), Event.Insert(0)],
             d, [ChooseName(0), Swap(0), Event.Insert(1), Rename(0), Truncate(0)], RaceConfig());
    states := Joined(Joined(a, b), d);
    assert states[4] == d[1] && states[5] == d[2] && states[8] == d[5];
    RaceFiles(d[5].dir);
    RaceReads(d[2], d[5]);
    UnguardedRace(d[1]);
    RaceIsGuardedUpTo(states, w);
    SwapDecides(states, RaceEvents(), RaceConfig(), {0, 1}, w, 4, 7, 0, [LevelName(0, 10)], []);
  }

  lemma RaceReads(swapped: System, truncated: System)
    requires swapped.mem == map[] && swapped.l0 == [] && swapped.l1 == [] && truncated.mem == map[KEY := [1]]
    ensures Get(swapped, LONG.key) == None && Get(truncated, KEY) == Some([1])
  {
    ReadTwoLevels(AsStore(swapped), LONG.key);
    NoFiles(swapped.dir);
    assert Reversed<Table>([]) + [] == [];
  }

  lemma UnguardedRace(s: System)
    requires KEY !in s.mem && s.dir.Keys == {WAL_NAME} && 1 in s.clients && s.clients[1] == Logged(SHORT)
    ensures !Guarded(s, Swap(0), Write(KEY, [1]))
  {
    hide LevelOf, TableAt, Lookup;
    WalIsSkipped();
    assert s.clients[1].Logged? && s.clients[1].entry.key == KEY;
  }

  lemma RaceIsGuardedUpTo(states: seq<System>, w: Write)
    requires |states| == 9
    ensures AllGuarded(states, RaceEvents(), w, 4) && IsFlushSpan(RaceEvents(), 4, 7, 0)
    ensures OnlyWritten(RaceEvents(), Write(KEY, [1]))
  {
    hide Guarded;
    forall i | 0 <= i < 4 ensures Guarded(states[i], RaceEvents()[i], w) {
      NotASwap(states[i], RaceEvents()[i], w);
    }
  }

  // ---------- two flushes that register in the other order ----------

  /** The table of a flush, as its file holds it once the log is truncated. */
  lemma TruncatedTable(s: System, t: Tid, w: Write)
    requires WriteInv(s, w) && PcOf(s, t).Truncated?
    ensures TableAt(s.dir, PcOf(s, t).name) == Entries(PcOf(s, t).table)
  {
    hide Entries, TableAt, IsSsTable, Issued, GoodFiles, KnownIn;
    assert ThreadInv(s, t, w);
  }

  /** The flush that registers last decides, whichever memtable was swapped out first. */
  lemma LastRegisteredWins(s: System, t: Tid, u: Tid, key: Bytes, w: Write)
    requires WriteInv(s, w) && s.compactor == Resting && t != u && key !in s.mem
    requires PcOf(s, t).Truncated? && PcOf(s, u).Truncated?
    ensures CanRegister(s, t) && CanRegister(AfterRegister(s, t), u)
    ensures Get(AfterRegister(AfterRegister(s, t), u), key) ==
            if key in PcOf(s, u).table then Live(Some(PcOf(s, u).table[key]))
            else if key in PcOf(s, t).table then Live(Some(PcOf(s, t).table[key]))
            else Get(s, key)
  {
    hide Entries, TableAt, View, WriteInv, TablesAt;
    var a, b := PcOf(s, t), PcOf(s, u);
    var last := AfterRegister(AfterRegister(s, t), u);
    TruncatedTable(s, t, w);
    TruncatedTable(s, u, w);
    EntriesAreTheMap(a.table);
    EntriesAreTheMap(b.table);
    assert last.l0 == s.l0 + [a.name] + [b.name] && last.mem == s.mem;
    TablesAtConcat(s.dir, s.l0, [a.name]);
    TablesAtConcat(s.dir, s.l0 + [a.name], [b.name]);
    TablesAtOne(s.dir, a.name);
    TablesAtOne(s.dir, b.name);
    ReadTwoLevels(AsStore(last), key);
    ReadTwoLevels(AsStore(s), key);
    var t0, t1 := TablesAt(s.dir, s.l0), TablesAt(s.dir, s.l1);
    ViewPush(t0, Entries(a.table), t1, key);
    ViewPush(t0 + [Entries(a.table)], Entries(b.table), t1, key);
  }

  const LATER: WalEntry := Put(KEY, [2, 2])

  /** Thread 1 puts one byte under `KEY`; thread 0 flushes it. Thread 1 puts two bytes and flushes them. */
  function CrossEvents(): seq<Event> {
    [Append(1, SHORT), Event.Insert(1)] + [Append(0, LONG), Event.Insert(0)] + FlushEvents(0) +
    ([Append(1, LATER), Event.Insert(1)] + FlushEvents(1))
  }

  lemma TwoEntries()
    ensures Entries(map[KEY := [1], LONG.key := LONG.value]) == [Record(KEY, [1]), Record(LONG.key, LONG.value)]
    ensures TableBytes([Record(KEY, [1]), Record(LONG.key, LONG.value)]) == 6
  {
    hide Less;
    var m := map[KEY := [1], LONG.key := LONG.value];
    assert IsMinKey(KEY, m) by { SmallestKey(); }
    EntriesStep(m, KEY);
    assert m - {KEY} == map[LONG.key := LONG.value];
    OneEntry(LONG.key, LONG.value);
    assert [Record(KEY, [1]), Record(LONG.key, LONG.value)][1..] == [Record(LONG.key, LONG.value)];
    OneTableBytes(LONG.key, LONG.value);
  }

  lemma SmallestKey()
    ensures IsMinKey(KEY, map[KEY := [1], LONG.key := LONG.value])
  {
  }

  /** Both puts of thread 1 are in flushes that are not yet registered. */
  lemma CrossRun() returns (states: seq<System>, last: System)
    ensures IsRun(states, CrossEvents(), RaceConfig()) && states[0] == EmptyStore({0, 1}) &&
            states[|states| - 1] == last
    ensures last.mem == map[] && last.l0 == [] && last.l1 == [] && last.compactor == Resting
    ensures last.inserted == map[KEY := [2, 2], LONG.key := LONG.value]
    ensures last.clients == map[0 := Truncated(LevelName(0, 10), map[KEY := [1], LONG.key := LONG.value]),
                                1 := Truncated(LevelName(0, 11), map[KEY := [2, 2]])]
  {
    hide IsRun, LevelName, Entries, FileFits, TableBytes, Joined;
    var a, b, d, mid := FirstFlush();
    var e, f;
    e, f, last := SecondFlush(mid);
    states := Joined(Joined(Joined(a, b), d), Joined(e, f));
    JoinFive(a, b, d, e, f);
  }

  lemma SecondFlush(s: System) returns (e: seq<System>, f: seq<System>, last: System)
    requires s.mem == map[] && s.clock == 11 && 0 in s.clients && s.clients[0].Truncated?
    requires s.clients == map[0 := s.clients[0], 1 := Idle]
    ensures IsRun(e, [Append(1, LATER), Event.Insert(1)], RaceConfig()) && IsRun(f, FlushEvents(1), RaceConfig())
    ensures e[0] == s && e[|e| - 1] == f[0] && f[|f| - 1] == last
    ensures last.mem == map[] && last.l0 == s.l0 && last.l1 == s.l1 && last.compactor == s.compactor
    ensures last.inserted == s.inserted[KEY := [2, 2]]
    ensures last.clients == map[0 := s.clients[0], 1 := Truncated(LevelName(0, 11), map[KEY := [2, 2]])]
  {
    hide Enabled, Do, LevelName, Entries, FileFits, TableBytes;
    LaterFits();
    OneEntry(KEY, [2, 2]);
    OneTableBytes(KEY, [2, 2]);
    SmallFileFits([Record(KEY, [2, 2])]);
    var full;
    e, full := PutSteps(s, 1, LATER, RaceConfig());
    assert full.mem == map[KEY := [2, 2]];
    f, last := FlushToTruncation(full, 1, RaceConfig());
  }

  lemma FirstFlush() returns (a: seq<System>, b: seq<System>, d: seq<System>, last: System)
    ensures IsRun(a, [Append(1, SHORT), Event.Insert(1)], RaceConfig()) && a[0] == EmptyStore({0, 1})
    ensures IsRun(b, [Append(0, LONG), Event.Insert(0)], RaceConfig()) && a[|a| - 1] == b[0]
    ensures IsRun(d, FlushEvents(0), RaceConfig()) && b[|b| - 1] == d[0] && d[|d| - 1] == last
    ensures last.mem == map[] && last.l0 == [] && last.l1 == [] && last.compactor == Resting && last.clock == 11
    ensures last.inserted == map[KEY := [1], LONG.key := LONG.value]
    ensures last.clients == map[0 := Truncated(LevelName(0, 10), map[KEY := [1], LONG.key := LONG.value]), 1 := Idle]
  {
    hide IsRun, LevelName, Entries, FileFits, TableBytes;
    ShortEntriesFit();
    OneEntry(KEY, [1]);
    OneTableBytes(KEY, [1]);
    TwoEntries();
    SmallFileFits([Record(KEY, [1]), Record(LONG.key, LONG.value)]);
    var s1, s2;
    a, s1 := PutSteps(EmptyStore({0, 1}), 1, SHORT, RaceConfig());
    b, s2 := PutSteps(s1, 0, LONG, RaceConfig());
    d, last := FlushToTruncation(s2, 0, RaceConfig());
  }

  lemma LaterFits()
    ensures LATER.Fits()
  {
    assert Pow256(4) == 0x1_0000_0000;
  }

  lemma JoinFive(a: seq<System>, b: seq<System>, d: seq<System>, e: seq<System>, f: seq<System>)
    requires IsRun(a, [Append(1, SHORT), Event.Insert(1)], RaceConfig())
    requires IsRun(b, [Append(0, LONG), Event.Insert(0)], RaceConfig()) && IsRun(d, FlushEvents(0), RaceConfig())
    requires IsRun(e, [Append(1, LATER), Event.Insert(1)], RaceConfig()) && IsRun(f, FlushEvents(1), RaceConfig())
    requires a[|a| - 1] == b[0] && b[|b| - 1] == d[0] && d[|d| - 1] == e[0] && e[|e| - 1] == f[0]
    ensures var all := Joined(Joined(Joined(a, b), d), Joined(e, f));
            IsRun(all, CrossEvents(), RaceConfig()) && all[0] == a[0] && all[|all| - 1] == f[|f| - 1]
  {
    hide Enabled, Do, Joined;
    RunsJoin(a, [Append(1, SHORT), Event.Insert(1)], b, [Append(0, LONG), Event.Insert(0)], RaceConfig());
    RunsJoin(Joined(a, b), [Append(1, SHORT), Event.Insert(1)] + [Append(0, LONG), Event.Insert(0)], d, FlushEvents(0),
             RaceConfig());
    RunsJoin(e, [Append(1, LATER), Event.Insert(1)], f, FlushEvents(1), RaceConfig());
    RunsJoin(Joined(Joined(a, b), d),
             [Append(1, SHORT), Event.Insert(1)] + [Append(0, LONG), Event.Insert(0)] + FlushEvents(0),
             Joined(e, f), [Append(1, LATER), Event.Insert(1)] + FlushEvents(1), RaceConfig());
  }

  /** A client reads its own older value: the flush that took it registers after the flush that took the newer
      one. In the other order it reads the newer. */
  lemma LateRegistrationHidesAnUpdate() returns (states: seq<System>, last: System)
    ensures IsRun(states, CrossEvents(), RaceConfig()) && Initial(states[0], {0, 1}) && states[|states| - 1] == last
    ensures last.inserted[KEY := [2, 2]] == last.inserted && CanRegister(last, 0) && CanRegister(last, 1)
    ensures var late := AfterRegister(AfterRegister(last, 1), 0);
            CanRegister(AfterRegister(last, 1), 0) && PcOf(late, 1) == Idle && Get(late, KEY) == Some([1])
    ensures Get(AfterRegister(AfterRegister(last, 0), 1), KEY) == Some([2, 2])
  {
    hide IsRun, LevelName, Get, WriteInv, LogInv, AllGuarded;
    states, last := CrossRun();
    var w := Write([8, 8, 8], []);
    assert NeverWritten(CrossEvents(), w.key);
    assert |states| == |CrossEvents()| + 1 by { RunLength(states, CrossEvents(), RaceConfig()); }
    UnwrittenIsSafe(states, CrossEvents(), RaceConfig(), {0, 1}, w, |CrossEvents()|);
    LastRegisteredWins(last, 1, 0, KEY, w);
    LastRegisteredWins(last, 0, 1, KEY, w);
  }

  lemma RunLength(states: seq<System>, events: seq<Event>, c: Config)
    requires IsRun(states, events, c)
    ensures |states| == |events| + 1
  {
    hide Enabled, Do;
  }

  // ---------- a flush of an empty memtable ----------

  /** Two puts fill the memtable before either client flushes: the second flush finds it empty. */
  function IdleFlushEvents(): seq<Event> {
    [Append(0, LONG), Event.Insert(0)] + [Append(1, LATER), Event.Insert(1)] + FlushEvents(0) + FlushEvents(1)
  }

  lemma TwoMore()
    ensures var m := map[LONG.key := LONG.value, KEY := [2, 2]];
            && Entries(m) == [Record(KEY, [2, 2]), Record(LONG.key, LONG.value)]
            && TableBytes(Entries(m)) == 7
  {
    hide Less;
    var m := map[LONG.key := LONG.value, KEY := [2, 2]];
    assert IsMinKey(KEY, m) by { SmallestOfTwo(); }
    EntriesStep(m, KEY);
    assert m - {KEY} == map[LONG.key := LONG.value];
    OneEntry(LONG.key, LONG.value);
    assert [Record(KEY, [2, 2]), Record(LONG.key, LONG.value)][1..] == [Record(LONG.key, LONG.value)];
    OneTableBytes(LONG.key, LONG.value);
  }

  lemma SmallestOfTwo()
    ensures IsMinKey(KEY, map[LONG.key := LONG.value, KEY := [2, 2]])
  {
  }

  lemma IdleFlushRun() returns (states: seq<System>, last: System)
    ensures IsRun(states, IdleFlushEvents(), RaceConfig()) && states[0] == EmptyStore({0, 1}) &&
            states[|states| - 1] == last
    ensures last.l0 == [] && last.compactor == Resting
    ensures PcOf(last, 1) == Truncated(LevelName(0, 11), map[])
  {
    hide IsRun, LevelName, Entries, FileFits, TableBytes, Joined;
    ShortEntriesFit();
    LaterFits();
    OneEntry(LONG.key, LONG.value);
    OneTableBytes(LONG.key, LONG.value);
    TwoMore();
    NoEntries();
    SmallFileFits([Record(KEY, [2, 2]), Record(LONG.key, LONG.value)]);
    SmallFileFits([]);
    var c, s0 := RaceConfig(), EmptyStore({0, 1});
    var a, s1 := PutSteps(s0, 0, LONG, c);
    var b, s2 := PutSteps(s1, 1, LATER, c);
    var d, s3 := FlushToTruncation(s2, 0, c);
    var e, s4 := FlushToTruncation(s3, 1, c);
    last := s4;
    states := Joined(Joined(Joined(a, b), d), e);
    JoinFour(a, b, d, e);
  }

  /** Racing flushes: the second one registers a level-0 file without records, on which the next compaction will
      fail. */
  lemma RacingFlushMakesAnEmptyTable() returns (states: seq<System>, last: System)
    ensures IsRun(states, IdleFlushEvents(), RaceConfig()) && Initial(states[0], {0, 1}) && states[|states| - 1] == last
    ensures CanRegister(last, 1)
    ensures var after := AfterRegister(last, 1);
            after.l0 == [LevelName(0, 11)] && TablesAt(after.dir, after.l0) == [[]] && !NonEmpty(after.dir, after.l0)
  {
    hide IsRun, LevelName, WriteInv, LogInv, AllGuarded, TableAt, Entries;
    states, last := IdleFlushRun();
    var w := Write([8, 8, 8], []);
    assert NeverWritten(IdleFlushEvents(), w.key);
    RunLength(states, IdleFlushEvents(), RaceConfig());
    UnwrittenIsSafe(states, IdleFlushEvents(), RaceConfig(), {0, 1}, w, |IdleFlushEvents()|);
    TruncatedTable(last, 1, w);
    NoEntries();
    TablesAtOne(last.dir, LevelName(0, 11));
    NonEmptyTables(last.dir, [LevelName(0, 11)]);
    assert TablesAt(last.dir, [LevelName(0, 11)])[0] == [];
  }

  lemma JoinFour(a: seq<System>, b: seq<System>, d: seq<System>, e: seq<System>)
    requires IsRun(a, [Append(0, LONG), Event.Insert(0)], RaceConfig())
    requires IsRun(b, [Append(1, LATER), Event.Insert(1)], RaceConfig()) && IsRun(d, FlushEvents(0), RaceConfig())
    requires IsRun(e, FlushEvents(1), RaceConfig())
    requires a[|a| - 1] == b[0] && b[|b| - 1] == d[0] && d[|d| - 1] == e[0]
    ensures var all := Joined(Joined(Joined(a, b), d), e);
            IsRun(all, IdleFlushEvents(), RaceConfig()) && all[0] == a[0] && all[|all| - 1] == e[|e| - 1]
  {
    hide Enabled, Do, Joined;
    RunsJoin(a, [Append(0, LONG), Event.Insert(0)], b, [Append(1, LATER), Event.Insert(1)], RaceConfig());
    RunsJoin(Joined(a, b), [Append(0, LONG), Event.Insert(0)] + [Append(1, LATER), Event.Insert(1)], d, FlushEvents(0),
             RaceConfig());
    RunsJoin(Joined(Joined(a, b), d),
             [Append(0, LONG), Event.Insert(0)] + [Append(1, LATER), Event.Insert(1)] + FlushEvents(0),
             e, FlushEvents(1), RaceConfig());
  }
}
