/** Concrete runs of one client in which a compaction, a crash among its deletions, or a restart after a failed one
    brings an old value back. */
module Losses {
  import opened Wrappers
  import opened Bytes
  import opened Names
  import opened Storage
  import opened Tables
  import opened SsTableFormat
  import opened WalFormat
  import opened MemTable
  import opened Compaction
  import opened LevelTables
  import opened Levels
  import opened Wal
  import opened Stores
  import opened Machine
  import opened Durable
  import opened Recovery
  import opened Conservation
  import opened Scenarios
  import Lsm

  /** Every write fills the memtable. */
  function Small(): Config {
    Config(1, (n: nat) => NoFilter(), 2)
  }

  predicate TwoDigits(clock: nat) {
    10 <= clock < 100
  }

  lemma TwoDigitsPrint(clock: nat)
    requires TwoDigits(clock)
    ensures |Decimal(clock)| == 2
  {
  }

  /** Between operations, with these tables in the two levels. */
  ghost predicate Rested(s: System, t0: seq<Table>, t1: seq<Table>, logged: KeyValues) {
    && s.mem == map[] && s.clients == map[0 := Idle] && s.compactor == Resting && s.logged == logged
    && TablesAt(s.dir, s.l0) == t0 && TablesAt(s.dir, s.l1) == t1
    && AllIssued(s.l0, 0, s.clock) && AllIssued(s.l1, 1, s.clock) && DirIssued(s.dir, s.clock)
    && LogOf(s.dir) == []
  }

  ghost predicate DirIssued(dir: Directory, clock: nat) {
    forall n | n in dir && LevelOf(n).Some? :: Issued(n, 0, clock) || Issued(n, 1, clock)
  }

  /** The level-0 files outside the list are the same before and after. */
  ghost predicate KeepsStrays(before: System, after: System) {
    && (forall n | FiledUnder(before.dir, n, 0) && n !in before.l0 ::
          FiledUnder(after.dir, n, 0) && n !in after.l0 && TableAt(after.dir, n) == TableAt(before.dir, n))
    && (forall n | FiledUnder(after.dir, n, 0) && n !in after.l0 :: FiledUnder(before.dir, n, 0) && n !in before.l0)
  }

  lemma StraysOn(a: System, b: System, c: System)
    requires KeepsStrays(a, b) && KeepsStrays(b, c)
    ensures KeepsStrays(a, c)
  {
    hide LevelOf, TableOf;
  }

  /** A run from one state to another. */
  ghost predicate Leads(states: seq<System>, events: seq<Event>, s: System, last: System) {
    IsRun(states, events, Small()) && states[0] == s && states[|states| - 1] == last
  }

  lemma LeadsOn(a: seq<System>, ea: seq<Event>, b: seq<System>, eb: seq<Event>, s: System, mid: System, last: System)
    requires Leads(a, ea, s, mid) && Leads(b, eb, mid, last)
    ensures Leads(Joined(a, b), ea + eb, s, last) && |Joined(a, b)| == |a| + |b| - 1 && |a| == |ea| + 1
    ensures Joined(a, b)[|ea|] == mid
  {
    hide Enabled, Do;
    RunsJoin(a, ea, b, eb, Small());
  }

  // ---------- one operation ----------

  /** The record of an operation on `KEY`. */
  predicate OnKey(entry: WalEntry, value: Bytes) {
    entry.key == KEY && |value| < 20 && Applied(map[], entry) == map[KEY := value]
  }

  lemma OneWrite(s: System, t0: seq<Table>, t1: seq<Table>, logged: KeyValues, entry: WalEntry, value: Bytes)
    returns (states: seq<System>, events: seq<Event>, last: System)
    requires Rested(s, t0, t1, logged) && OnKey(entry, value) && TwoDigits(s.clock) && entry.Fits()
    ensures Leads(states, events, s, last) && last.clock == s.clock + 1
    ensures Rested(last, t0 + [One(value)], t1, Applied(logged, entry))
    ensures events == [Append(0, entry), Event.Insert(0), ChooseName(0), Swap(0), Rename(0), Truncate(0), Register(0)]
    ensures KeepsStrays(s, last)
  {
    hide Rested, Enabled, Do, FileFits, LevelName, WithLogged, WithTable, WithoutLog, TableBytes, Entries, Applied;
    hide Decimal;
    RestedFacts(s, t0, t1, logged);
    TwoDigitsPrint(s.clock);
    OneEntry(KEY, value);
    OneTableBytes(KEY, value);
    SmallFileFits(One(value));
    states := OperationIsARun(s, 0, entry, Small());
    events := OperationEvents(s, 0, entry, Small());
    last := states[|states| - 1];
    FlushedTables(s, t0, t1, logged, entry, value, last);
    FlushKeepsStrays(s, t0, t1, logged, entry, value, last);
  }

  lemma RestedFacts(s: System, t0: seq<Table>, t1: seq<Table>, logged: KeyValues)
    requires Rested(s, t0, t1, logged)
    ensures s.mem == map[] && s.clients == map[0 := Idle] && s.compactor == Resting && s.logged == logged
    ensures |s.l0| == |t0| && |s.l1| == |t1|
  {
    hide TableAt, Issued;
  }

  /** The state after a write and its flush, spelled out. */
  lemma {:induction false} FlushedState(s: System, entry: WalEntry, value: Bytes, last: System)
    requires s.mem == map[] && OnKey(entry, value)
    requires AsStore(last) == Written(AsStore(s), entry, 1, s.clock, Small().sizing)
    ensures last.mem == map[] && last.l0 == s.l0 + [LevelName(0, s.clock)] && last.l1 == s.l1 && LogOf(last.dir) == []
    ensures last.dir == WithoutLog(WithTable(WithLogged(s.dir, entry), LevelName(0, s.clock), One(value), NoFilter()))
  {
    hide LevelName, TableBytes, Entries, Applied, WithLogged, WithTable;
    OneEntry(KEY, value);
    OneTableBytes(KEY, value);
    assert [s.l0, s.l1][0 := s.l0 + [LevelName(0, s.clock)]] == [s.l0 + [LevelName(0, s.clock)], s.l1];
  }

  /** The tables after a write and its flush. */
  lemma {:induction false} FlushedTables(s: System, t0: seq<Table>, t1: seq<Table>, logged: KeyValues,
                                         entry: WalEntry, value: Bytes, last: System)
    requires Rested(s, t0, t1, logged) && OnKey(entry, value) && last.clock == s.clock + 1
    requires AsStore(last) == Written(AsStore(s), entry, 1, s.clock, Small().sizing)
    requires last.clients == s.clients && last.compactor == Resting && last.logged == Applied(s.logged, entry)
    ensures Rested(last, t0 + [One(value)], t1, Applied(logged, entry))
  {
    hide Written, LevelName, TableAt, Issued, LevelOf, Applied, WithLogged, WithTable, WithoutLog;
    var name := LevelName(0, s.clock);
    FlushedState(s, entry, value, last);
    LevelOfLevelName(0, s.clock);
    FlushedFile(s.dir, entry, name, value);
    OtherNames(s.l0, 0, s.clock, name);
    OtherNames(s.l1, 1, s.clock, name);
    TablesAtConcat(last.dir, s.l0, [name]);
    TablesAtOne(last.dir, name);
    assert TablesAt(last.dir, s.l0) == t0 && TablesAt(last.dir, s.l1) == t1;
    AllIssuedLater(s.l0, 0, s.clock, last.clock);
    AllIssuedLater(s.l1, 1, s.clock, last.clock);
    JustIssued(0, s.clock);
    DirIssuedLater(s.dir, s.clock, last.dir, last.clock, name);
  }

  lemma DirIssuedLater(dir: Directory, clock: nat, after: Directory, later: nat, name: Name)
    requires DirIssued(dir, clock) && clock <= later && (Issued(name, 0, later) || Issued(name, 1, later))
    requires forall n | n in after && n != name && LevelOf(n).Some? :: n in dir
    ensures DirIssued(after, later)
  {
    hide Issued, LevelOf;
    forall n | n in after && LevelOf(n).Some? ensures Issued(n, 0, later) || Issued(n, 1, later) {
      if n != name && Issued(n, 0, clock) {
        IssuedLater(n, 0, clock, later);
      } else if n != name {
        IssuedLater(n, 1, clock, later);
      }
    }
  }

  /** A name of this instant is not in the directory. */
  lemma NotThereYet(dir: Directory, clock: nat, level: nat)
    requires DirIssued(dir, clock) && level < 2
    ensures LevelName(level, clock) !in dir
  {
    hide LevelName, LevelOf, Issued;
    var name := LevelName(level, clock);
    LevelOfLevelName(level, clock);
    if Issued(name, 0, clock) {
      IssuedLevel(name, 0, clock);
      FreshName(name, level, clock);
    }
    if Issued(name, 1, clock) {
      IssuedLevel(name, 1, clock);
      FreshName(name, level, clock);
    }
  }

  lemma FlushKeepsStrays(s: System, t0: seq<Table>, t1: seq<Table>, logged: KeyValues, entry: WalEntry, value: Bytes,
                         last: System)
    requires Rested(s, t0, t1, logged) && OnKey(entry, value)
    requires AsStore(last) == Written(AsStore(s), entry, 1, s.clock, Small().sizing)
    ensures KeepsStrays(s, last)
  {
    hide Written, LevelName, TableAt, Issued, LevelOf, Applied, WithLogged, WithTable, WithoutLog, AllIssued;
    var name := LevelName(0, s.clock);
    FlushedState(s, entry, value, last);
    LevelOfLevelName(0, s.clock);
    FlushedFile(s.dir, entry, name, value);
    NotThereYet(s.dir, s.clock, 0);
  }

  /** The new file holds the one record; other level files are untouched. */
  lemma FlushedFile(dir: Directory, entry: WalEntry, name: Name, value: Bytes)
    requires |value| < 20 && LevelOf(name).Some?
    ensures var after := WithoutLog(WithTable(WithLogged(dir, entry), name, One(value), NoFilter()));
            && TableAt(after, name) == One(value)
            && forall n | n != name && LevelOf(n).Some? ::
                 (n in after <==> n in dir) && TableAt(after, n) == TableAt(dir, n)
  {
    hide FileBytes, FileFits, TmpName, Encoding, LogOf, TableOf, LevelOf;
    SmallFileFits(One(value));
    TableOfFileBytes(One(value), NoFilter());
    TmpAndWalAreSkipped(name);
  }

  lemma OtherNames(names: seq<Name>, level: nat, clock: nat, name: Name)
    requires AllIssued(names, level, clock) && level < 2 && (name == LevelName(0, clock) || name == LevelName(1, clock))
    ensures forall i | 0 <= i < |names| :: names[i] != name && LevelOf(names[i]).Some?
  {
    hide LevelName, LevelOf, Issued;
    LevelOfLevelName(0, clock);
    LevelOfLevelName(1, clock);
    forall i | 0 <= i < |names| ensures names[i] != name && LevelOf(names[i]).Some? {
      IssuedLevel(names[i], level, clock);
      FreshName(names[i], level, clock);
    }
  }

  // ---------- one compaction ----------

  /** Every table holds one short record of `KEY`. */
  ghost predicate OnKeyOnly(ts: seq<Table>) {
    forall i | 0 <= i < |ts| :: |ts[i]| == 1 && ts[i][0].key == KEY && |ts[i][0].value| < 20
  }

  /** What a merge of such tables writes: the record of the first, unless it is a tombstone. */
  function FirstOf(t: Table): Table {
    DropTombstones(t)
  }

  lemma {:induction false} MergeOnKey(runs: seq<Table>)
    requires OnKeyOnly(runs) && runs != []
    ensures MergeAll(runs) == runs[0]
    ensures Compacted(runs) == FirstOf(runs[0])
  {
    if |runs| > 1 {
      MergeOnKey(runs[1..]);
      assert runs[1..][0] == runs[1];
      assert runs[0] == [runs[0][0]] && runs[0][1..] == [] && runs[1][1..] == [];
    } else {
      assert runs[1..] == [];
    }
  }

  lemma {:induction false} HullOnKey(ts: seq<Table>)
    requires OnKeyOnly(ts) && ts != [] && AllNonEmpty(ts)
    ensures HullOf(ts) == Range(KEY, KEY)
    decreases |ts|
  {
    if |ts| > 1 {
      HullOnKey(ts[..|ts| - 1]);
    }
  }

  lemma {:induction false} NothingKept(dir: Directory, names: seq<Name>)
    requires OnKeyOnly(TablesAt(dir, names)) && NonEmpty(dir, names)
    ensures SelectNames(dir, names, Range(KEY, KEY), false) == [] &&
            SelectNames(dir, names, Range(KEY, KEY), true) == names
    decreases names
  {
    hide TableAt;
    LessIrreflexive(KEY);
    if names != [] {
      assert TablesAt(dir, names)[1..] == TablesAt(dir, names[1..]);
      assert TablesAt(dir, names)[0] == TableAt(dir, names[0]);
      NothingKept(dir, names[1..]);
    }
  }

  lemma OnKeyNonEmpty(dir: Directory, names: seq<Name>)
    requires OnKeyOnly(TablesAt(dir, names))
    ensures NonEmpty(dir, names) && AllNonEmpty(TablesAt(dir, names))
  {
    hide TableAt;
    forall i | 0 <= i < |names| ensures TableAt(dir, names[i]) != [] {
      assert TablesAt(dir, names)[i] == TableAt(dir, names[i]);
    }
  }

  /** The compaction that would start now: what it merges, and what it writes. */
  lemma MergeFacts(s: System, t0: seq<Table>, t1: seq<Table>, logged: KeyValues)
    requires Rested(s, t0, t1, logged) && |t0| >= 4 && OnKeyOnly(t0) && OnKeyOnly(t1) && TwoDigits(s.clock)
    ensures CanMerge(s, Small()) && L1Part([s.l0, s.l1], s.dir, false) == [] && Inputs(s) == s.l0 + s.l1
    ensures Compacted(TablesAt(s.dir, Inputs(s))) == FirstOf(t0[0])
  {
    hide TableAt, Issued, HullOf, SelectNames, Compacted, FileFits, NonEmpty, Select, Overlap, Decimal, DirIssued;
    TwoDigitsPrint(s.clock);
    OnKeyNonEmpty(s.dir, s.l0);
    OnKeyNonEmpty(s.dir, s.l1);
    HullOnKey(t0);
    NothingKept(s.dir, s.l1);
    SelectNamesTables(s.dir, s.l1, HullOf(t0), true);
    TablesAtConcat(s.dir, s.l0, L1Part([s.l0, s.l1], s.dir, true));
    SelectMembers(t1, HullOf(t0), true);
    var runs := TablesAt(s.dir, Inputs(s));
    var met := Select(t1, HullOf(t0), true);
    assert runs == t0 + met;
    OnKeySubset(met, t1);
    assert OnKeyOnly(runs);
    MergeOnKey(runs);
    assert runs[0] == t0[0];
    DropFits(t0[0]);
  }

  lemma OnKeySubset(a: seq<Table>, b: seq<Table>)
    requires OnKeyOnly(b) && forall t | t in a :: t in b
    ensures OnKeyOnly(a)
  {
    forall i | 0 <= i < |a| ensures |a[i]| == 1 && a[i][0].key == KEY && |a[i][0].value| < 20 {
      assert a[i] in b;
      var j :| 0 <= j < |b| && b[j] == a[i];
    }
  }

  lemma DropFits(t: Table)
    requires |t| == 1 && t[0].key == KEY && |t[0].value| < 20
    ensures FileFits(FirstOf(t), NoFilter())
  {
    hide FileFits;
    assert t == [t[0]] && t[1..] == [];
    SmallFileFits(FirstOf(t));
  }

  /** The output is in place, and the other level files are as they were. */
  lemma OutputFile(s: System, t: Table)
    requires CanMerge(s, Small()) && Compacted(TablesAt(s.dir, Inputs(s))) == t && FileFits(t, NoFilter())
    ensures var after, output := AfterMerge(s, Small()).dir, LevelName(1, s.clock);
            && TableAt(after, output) == t && LogOf(after) == LogOf(s.dir)
            && forall n | n != output && LevelOf(n).Some? ::
                 (n in after <==> n in s.dir) && TableAt(after, n) == TableAt(s.dir, n)
  {
    hide Inputs, TablesAt, Compacted, L1Part, NonEmpty, FileFits, FileBytes, TableOf, LevelName, TmpName, LevelOf;
    hide TotalRecords, Decimal;
    TmpAndWalAreSkipped(LevelName(1, s.clock));
    LevelOfLevelName(1, s.clock);
    TableOfFileBytes(t, NoFilter());
  }

  lemma OneCompaction(s: System, t0: seq<Table>, t1: seq<Table>, logged: KeyValues)
    returns (states: seq<System>, events: seq<Event>, last: System)
    requires Rested(s, t0, t1, logged) && |t0| >= 4 && OnKeyOnly(t0) && OnKeyOnly(t1) && TwoDigits(s.clock)
    ensures Leads(states, events, s, last) && last.clock == s.clock + 1 && events == [Merge, DeleteInputs, Publish]
    ensures Rested(last, [], [FirstOf(t0[0])], logged) && KeepsStrays(s, last)
    ensures AsStore(last) ==
            Store(map[], last.dir, CompactionOutcome([s.l0, s.l1], s.dir, s.clock, Small().sizing).levels)
  {
    hide CanMerge, CompactionOutcome, Rested, OnKeyOnly, Enabled, Do, FirstOf, NonEmpty, Inputs, FileFits, Compacted;
    hide TablesAt, Tick;
    MergeFacts(s, t0, t1, logged);
    MergeGuard(s, Small());
    states := CompactionIsARun(s, Small());
    events := [Merge, DeleteInputs, Publish];
    last := states[3];
    CompactedTables(s, t0, t1, logged, last);
    RestedFacts(s, t0, t1, logged);
  }

  lemma CompactedTables(s: System, t0: seq<Table>, t1: seq<Table>, logged: KeyValues, last: System)
    requires Rested(s, t0, t1, logged) && |t0| >= 4 && OnKeyOnly(t0) && OnKeyOnly(t1) && TwoDigits(s.clock)
    requires var o := CompactionOutcome([s.l0, s.l1], s.dir, s.clock, Small().sizing);
             && last.dir == o.dir && [last.l0, last.l1] == o.levels
             && last == s.(dir := last.dir, l0 := last.l0, l1 := last.l1, clock := s.clock + 1)
    ensures Rested(last, [], [FirstOf(t0[0])], logged) && KeepsStrays(s, last)
  {
    hide CanMerge, CompactionOutcome, OnKeyOnly, WithOutput, Inputs, Compacted, TableAt, LevelName, Issued, SetOf;
    hide FirstOf, L1Part;
    hide DirIssued, KeepsStrays;
    var output := LevelName(1, s.clock);
    MergeFacts(s, t0, t1, logged);
    OutcomeOfMerge(s, Small());
    assert [last.l0, last.l1] == [[], [output]] by { assert [] + [output] == [output]; }
    assert last.l0 == [last.l0, last.l1][0] && last.l1 == [last.l0, last.l1][1];
    OutputStays(s, last, FirstOf(t0[0]));
    TablesAtOne(last.dir, output);
    NoFiles(last.dir);
    JustIssued(1, s.clock);
  }

  /** Deleting the inputs leaves the output, and every file outside the lists. */
  lemma OutputStays(s: System, last: System, t: Table)
    requires CanMerge(s, Small()) && Compacted(TablesAt(s.dir, Inputs(s))) == t && Inputs(s) == s.l0 + s.l1
    requires AllIssued(s.l0, 0, s.clock) && AllIssued(s.l1, 1, s.clock) && DirIssued(s.dir, s.clock)
    requires last.dir == AfterMerge(s, Small()).dir - SetOf(s.l0 + s.l1) && last.l0 == []
    ensures TableAt(last.dir, LevelName(1, s.clock)) == t && DirIssued(last.dir, s.clock + 1)
    ensures KeepsStrays(s, last) && LogOf(last.dir) == LogOf(s.dir)
  {
    hide Inputs, TablesAt, Compacted, L1Part, NonEmpty, FileFits, TableOf, LevelName, LevelOf, Issued, Decimal;
    hide WithOutput, SetOf;
    hide DirIssued;
    var output, inputs := LevelName(1, s.clock), s.l0 + s.l1;
    OutputFile(s, t);
    OtherNames(s.l0, 0, s.clock, output);
    OtherNames(s.l1, 1, s.clock, output);
    LevelOfLevelName(1, s.clock);
    InSetOf(inputs, output);
    InSetOf(inputs, WAL_NAME);
    WalIsSkipped();
    forall i | 0 <= i < |s.l0| ensures s.l0[i] != WAL_NAME {
      IssuedLevel(s.l0[i], 0, s.clock);
    }
    assert output in AfterMerge(s, Small()).dir by { OutputIsThere(s); }
    JustIssued(1, s.clock);
    DirIssuedLater(s.dir, s.clock, last.dir, s.clock + 1, output);
    forall i | 0 <= i < |s.l1| ensures LevelOf(s.l1[i]) == Some(1) {
      IssuedLevel(s.l1[i], 1, s.clock);
    }
    forall n | LevelOf(n) == Some(0)
      ensures n in last.dir <==> n in s.dir && n !in s.l0
      ensures n in last.dir ==> TableAt(last.dir, n) == TableAt(s.dir, n)
    {
      InSetOf(inputs, n);
    }
  }

  lemma OutputIsThere(s: System)
    requires CanMerge(s, Small())
    ensures LevelName(1, s.clock) in AfterMerge(s, Small()).dir
  {
    hide Inputs, TablesAt, L1Part, NonEmpty, FileFits, LevelName, Decimal;
  }

  // ---------- four operations and a compaction ----------

  /** Four operations on `KEY`, each of which ends in a flush. */
  lemma FourWrites(s: System, t1: seq<Table>, logged: KeyValues, e: seq<WalEntry>, v: seq<Bytes>)
    returns (states: seq<System>, events: seq<Event>, last: System)
    requires Rested(s, [], t1, logged) && 10 <= s.clock && s.clock + 4 <= 100 && |e| == |v| == 4
    requires forall i | 0 <= i < 4 :: OnKey(e[i], v[i]) && e[i].Fits()
    ensures Leads(states, events, s, last) && last.clock == s.clock + 4
    ensures Rested(last, [One(v[0]), One(v[1]), One(v[2]), One(v[3])], t1,
                   Applied(Applied(Applied(Applied(logged, e[0]), e[1]), e[2]), e[3]))
    ensures NoMerge(events) && KeepsStrays(s, last)
  {
    hide Rested, Leads, OnKey, Applied, One, Joined, KeepsStrays;
    FourTables(One(v[0]), One(v[1]), One(v[2]), One(v[3]));
    var s1, e1, m1 := OneWrite(s, [], t1, logged, e[0], v[0]);
    var l1 := Applied(logged, e[0]);
    var s2, e2, m2 := OneWrite(m1, [One(v[0])], t1, l1, e[1], v[1]);
    var l2 := Applied(l1, e[1]);
    var s3, e3, m3 := OneWrite(m2, [One(v[0]), One(v[1])], t1, l2, e[2], v[2]);
    var l3 := Applied(l2, e[2]);
    var s4, e4, m4 := OneWrite(m3, [One(v[0]), One(v[1]), One(v[2])], t1, l3, e[3], v[3]);
    LeadsOn(s1, e1, s2, e2, s, m1, m2);
    LeadsOn(Joined(s1, s2), e1 + e2, s3, e3, s, m2, m3);
    LeadsOn(Joined(Joined(s1, s2), s3), e1 + e2 + e3, s4, e4, s, m3, m4);
    states, events, last := Joined(Joined(Joined(s1, s2), s3), s4), e1 + e2 + e3 + e4, m4;
    NoMergeJoins(e1, e2);
    NoMergeJoins(e1 + e2, e3);
    NoMergeJoins(e1 + e2 + e3, e4);
    StraysOn(s, m1, m2);
    StraysOn(s, m2, m3);
    StraysOn(s, m3, m4);
  }

  lemma FourTables(a: Table, b: Table, c: Table, d: Table)
    ensures [] + [a] == [a] && [a] + [b] == [a, b] && [a, b] + [c] == [a, b, c] && [a, b, c] + [d] == [a, b, c, d]
  {
  }

  predicate NoMerge(events: seq<Event>) {
    forall i | 0 <= i < |events| :: !events[i].Merge? && !events[i].Crash?
  }

  lemma NoMergeJoins(a: seq<Event>, b: seq<Event>)
    requires NoMerge(a) && NoMerge(b)
    ensures NoMerge(a + b)
  {
  }

  lemma BeginsRested()
    ensures Rested(EmptyStore({0}), [], [], map[]) && Initial(EmptyStore({0}), {0}) && EmptyStore({0}).clock == 10
  {
    NoFiles(EmptyStore({0}).dir);
  }

  /** A read between operations. */
  lemma RestedReads(s: System, t0: seq<Table>, t1: seq<Table>, logged: KeyValues, key: Bytes)
    requires Rested(s, t0, t1, logged)
    ensures Get(s, key) == View(t0, t1, key)
  {
    hide TableAt, Issued, View;
    ReadTwoLevels(AsStore(s), key);
  }

  function PutOnKey(n: Byte): WalEntry {
    Put(KEY, [n])
  }

  lemma PutIsOnKey(n: Byte)
    ensures OnKey(PutOnKey(n), [n]) && PutOnKey(n).Fits()
    ensures OnKey(Delete(KEY), TOMBSTONE) && Delete(KEY).Fits()
  {
    assert Pow256(4) == 0x1_0000_0000;
  }

  lemma OnesAreOnKey(v: seq<Bytes>, ts: seq<Table>)
    requires |ts| == |v| && forall i | 0 <= i < |v| :: |v[i]| < 20 && ts[i] == One(v[i])
    ensures OnKeyOnly(ts)
  {
  }

  /** What a level of one-record tables answers for `KEY`. */
  lemma NewestOne(t0: seq<Table>, t1: seq<Table>, value: Bytes)
    requires t0 != [] && t0[|t0| - 1] == One(value)
    ensures View(t0, t1, KEY) == Live(Some(value))
  {
    hide Lookup;
    OneRecord(KEY, value);
    var order := Reversed(t0) + t1;
    ReversedAt(t0, 0);
    assert order[0] == One(value);
    FirstHitAt(order, KEY, 0);
  }

  lemma OnlyOne(value: Bytes)
    ensures View([], [One(value)], KEY) == Live(Some(value))
  {
    hide Lookup;
    OneRecord(KEY, value);
    assert Reversed<Table>([]) + [One(value)] == [One(value)];
    FirstHitAt([One(value)], KEY, 0);
  }

  lemma DropKeeps(value: Bytes)
    ensures FirstOf(One(value)) == if value == TOMBSTONE then [] else One(value)
  {
    assert One(value)[1..] == [];
  }

  /** Four operations on an empty level 0, and the compaction they start. */
  lemma FourThenCompact(s: System, t1: seq<Table>, logged: KeyValues, e: seq<WalEntry>, v: seq<Bytes>)
    returns (states: seq<System>, events: seq<Event>, m: nat, last: System)
    requires Rested(s, [], t1, logged) && OnKeyOnly(t1) && 10 <= s.clock && s.clock + 5 <= 100 && |e| == |v| == 4
    requires forall i | 0 <= i < 4 :: OnKey(e[i], v[i]) && e[i].Fits()
    ensures Leads(states, events, s, last) && last.clock == s.clock + 5
    ensures m + 3 == |events| < |states| && events[m] == Merge && NoMerge(events[..m]) && NoMerge(events[m + 1..])
    ensures var after := Applied(Applied(Applied(Applied(logged, e[0]), e[1]), e[2]), e[3]);
            && Rested(states[m], [One(v[0]), One(v[1]), One(v[2]), One(v[3])], t1, after)
            && Rested(last, [], [FirstOf(One(v[0]))], after)
    ensures KeepsStrays(s, last) && KeepsStrays(s, states[m])
  {
    hide Rested, Applied, FirstOf, Enabled, Do, KeepsStrays;
    var a, ea, mid := FourWrites(s, t1, logged, e, v);
    var t0 := [One(v[0]), One(v[1]), One(v[2]), One(v[3])];
    var after := Applied(Applied(Applied(Applied(logged, e[0]), e[1]), e[2]), e[3]);
    OnesAreOnKey(v, t0);
    var b, eb;
    b, eb, last := OneCompaction(mid, t0, t1, after);
    LeadsOn(a, ea, b, eb, s, mid, last);
    StraysOn(s, mid, last);
    states, events, m := Joined(a, b), ea + eb, |ea|;
    assert events[..m] == ea && events[m + 1..] == [DeleteInputs, Publish];
  }

  /** The engine loses an update. A key is set to 1, 2, 3 and 4; every put fills the memtable. The read is
      4 until the background compaction, and 1 ever after. */
  lemma CompactionLosesAnUpdate() returns (states: seq<System>, events: seq<Event>, m: nat)
    ensures IsRun(states, events, Small()) && Initial(states[0], {0})
    ensures m < |events| && events[m] == Merge && Get(states[m], KEY) == Some([4])
    ensures var last := states[|states| - 1];
            && last.clients == map[0 := Idle] && last.compactor == Resting
            && last.logged == map[KEY := [4]] && Get(last, KEY) == Some([1])
  {
    hide Rested, Get, View, Enabled, Do;
    BeginsRested();
    var e, v := [PutOnKey(1), PutOnKey(2), PutOnKey(3), PutOnKey(4)], [[1], [2], [3], [4]];
    PutIsOnKey(1);
    PutIsOnKey(2);
    PutIsOnKey(3);
    PutIsOnKey(4);
    var last;
    states, events, m, last := FourThenCompact(EmptyStore({0}), [], map[], e, v);
    var t0 := [One([1]), One([2]), One([3]), One([4])];
    assert Applied(Applied(Applied(Applied(map[], e[0]), e[1]), e[2]), e[3]) == map[KEY := [4]];
    RestedReads(states[m], t0, [], map[KEY := [4]], KEY);
    NewestOne(t0, [], [4]);
    DropKeeps([1]);
    RestedReads(last, [], [One([1])], map[KEY := [4]], KEY);
    OnlyOne([1]);
    RestedFacts(last, [], [One([1])], map[KEY := [4]]);
  }

  // ---------- an empty table ----------

  /** Four deletes and their compaction, then four puts. */
  lemma EmptyTableRun() returns (states: seq<System>, events: seq<Event>, last: System, logged: KeyValues)
    ensures Leads(states, events, EmptyStore({0}), last) && CalmRun(states, events) && last.clock == 19
    ensures Rested(last, [One([1]), One([1]), One([1]), One([1])], [[]], logged) && logged == map[KEY := [1]]
    ensures KeepsStrays(EmptyStore({0}), last)
  {
    hide Rested, CalmRun, Enabled, Do, KeepsStrays;
    BeginsRested();
    PutIsOnKey(1);
    DropKeeps(TOMBSTONE);
    var del := [Delete(KEY), Delete(KEY), Delete(KEY), Delete(KEY)];
    var a, ea, m, mid := FourThenCompact(EmptyStore({0}), [], map[], del, [TOMBSTONE, TOMBSTONE, TOMBSTONE, TOMBSTONE]);
    assert Applied(Applied(Applied(Applied(map[], del[0]), del[1]), del[2]), del[3]) == map[KEY := TOMBSTONE];
    var e := [PutOnKey(1), PutOnKey(1), PutOnKey(1), PutOnKey(1)];
    var b, eb;
    b, eb, last := FourWrites(mid, [[]], map[KEY := TOMBSTONE], e, [[1], [1], [1], [1]]);
    assert NoStray(a[m]) by { StartedWithoutStrays(a[m]); }
    SameTablesAreCalm(a, ea, m, One(TOMBSTONE), [], map[KEY := TOMBSTONE]);
    NoMergeIsCalm(b, eb);
    CalmJoins(a, ea, b, eb, EmptyStore({0}), mid, last);
    logged := map[KEY := [1]];
    SetFourTimes(map[KEY := TOMBSTONE], e, [1]);
    LeadsOn(a, ea, b, eb, EmptyStore({0}), mid, last);
    StraysOn(EmptyStore({0}), mid, last);
    states, events := Joined(a, b), ea + eb;
  }

  lemma StartedWithoutStrays(s: System)
    requires KeepsStrays(EmptyStore({0}), s)
    ensures NoStray(s)
  {
    hide LevelOf, TableOf;
    WalIsSkipped();
    forall n | FiledUnder(s.dir, n, 0) ensures n in s.l0 { }
  }

  /** Four deletes of a key and their compaction leave a level-1 file without records. Four puts later the
      background compaction is due, and fails: it drains both level lists, and a key that was readable is gone
      from memory. */
  lemma EmptyTableStopsCompaction() returns (states: seq<System>, events: seq<Event>, m: nat)
    ensures IsRun(states, events, Small()) && Initial(states[0], {0}) && CalmRun(states, events)
    ensures |events| == m + 1 && events[m] == Fail && |states| == m + 2
    ensures var before, after := states[m], states[m + 1];
            && before.clients == map[0 := Idle] && Get(before, KEY) == Some([1])
            && CompactionOutcome([before.l0, before.l1], before.dir, before.clock, Small().sizing) ==
               Outcome([[], []], before.dir, Err(EmptySsTable))
            && after.l0 == [] && after.l1 == [] && after.dir == before.dir && Get(after, KEY) == None
            && Rested(before, [One([1]), One([1]), One([1]), One([1])], [[]], map[KEY := [1]])
            && Rested(after, [], [], map[KEY := [1]]) && KeepsStrays(EmptyStore({0}), before) && after.clock == 19
  {
    hide Rested, Get, View, Enabled, Do, CompactionOutcome, TablesAt, CalmRun, Inv, KeepsStrays;
    BeginsRested();
    var a, ea, before, logged := EmptyTableRun();
    var t0 := [One([1]), One([1]), One([1]), One([1])];
    OnesAreOnKey([[1], [1], [1], [1]], t0);
    RestedFacts(before, t0, [[]], logged);
    RestedReads(before, t0, [[]], logged, KEY);
    NewestOne(t0, [[]], [1]);
    RunKeepsInv(a, ea, Small(), |a| - 1);
    RestedFilesOpen(before);
    EmptyTableFails(before, t0, logged);
    var after := AfterFail(before);
    LeadsOn(a, ea, [before, after], [Fail], EmptyStore({0}), before, after);
    NoMergeIsCalm([before, after], [Fail]);
    CalmJoins(a, ea, [before, after], [Fail], EmptyStore({0}), before, after);
    states, events, m := Joined(a, [before, after]), ea + [Fail], |ea|;
    JoinedLast(a, before, after);
  }

  lemma JoinedLast(a: seq<System>, before: System, after: System)
    requires a != [] && a[|a| - 1] == before
    ensures var all := Joined(a, [before, after]);
            |all| == |a| + 1 && all[|a| - 1] == before && all[|a|] == after && all[0] == a[0]
  {
  }

  lemma RestedFilesOpen(s: System)
    requires Inv(s, Small()) && s.compactor == Resting
    ensures AllOpen(s.dir, s.l1)
  {
    hide AllNamedIn, Consistent, TombstoneFree, View, Clean, IsDiscovered, LogMem, TablesAt, OpenFile, IsSsTable;
    hide ClientInv;
    forall i | 0 <= i < |s.l1| ensures Opens(s.dir, s.l1[i]) {
      assert Files1(s)[|s.drained1| + i] == s.l1[i];
      SsTableIsTable(s.dir, s.l1[i]);
    }
  }

  lemma EmptyTableFails(s: System, t0: seq<Table>, logged: KeyValues)
    requires Rested(s, t0, [[]], logged) && |t0| == 4 && OnKeyOnly(t0) && AllOpen(s.dir, s.l1)
    ensures CompactionOutcome([s.l0, s.l1], s.dir, s.clock, Small().sizing) ==
            Outcome([[], []], s.dir, Err(EmptySsTable))
    ensures CanFail(s)
    ensures var after := AfterFail(s);
            && after == s.(l0 := [], l1 := [], drained0 := s.drained0 + s.l0, drained1 := s.drained1 + s.l1)
            && Rested(after, [], [], logged) && Get(after, KEY) == None
            && Leads([s, after], [Fail], s, after)
  {
    hide TableAt, Issued, OnKeyOnly, WithOutput, L1Part, Lookup, Opens, DirIssued;
    OnKeyNonEmpty(s.dir, s.l0);
    assert TablesAt(s.dir, s.l1)[0] == TableAt(s.dir, s.l1[0]);
    assert [s.l0, s.l1][0 := []][1 := []] == [[], []];
    NoFiles(s.dir);
    RestedReads(AfterFail(s), [], [], logged, KEY);
    assert Reversed<Table>([]) + [] == [];
    FailIsARun(s);
  }

  lemma FailIsARun(s: System)
    requires CanFail(s)
    ensures IsRun([s, AfterFail(s)], [Fail], Small())
  {
    hide CanFail, AfterFail;
  }

  // ---------- the restart after a failed compaction ----------

  /** Sorted lists of names exist. */
  lemma {:induction false} SortedList(names: set<Name>) returns (r: seq<Name>)
    ensures NamesSorted(r) && forall n :: n in r <==> n in names
  {
    if names == {} {
      r := [];
    } else {
      var name :| name in names;
      var rest := SortedList(names - {name});
      r := Lsm.InsertName(rest, name);
      Lsm.InsertNameSorted(rest, name);
    }
  }

  /** A directory with files of two levels can be opened. */
  lemma RestartExists(dir: Directory, clock: nat) returns (l0: seq<Name>, l1: seq<Name>)
    requires DirIssued(dir, clock)
    ensures IsDiscovered(dir, [l0, l1])
  {
    hide LevelOf, NamesSorted, Issued;
    l0 := SortedList(set n | n in dir && LevelOf(n) == Some(0));
    l1 := SortedList(set n | n in dir && LevelOf(n) == Some(1));
    forall n, i: nat | FiledUnder(dir, n, i) ensures i < 2 {
      if Issued(n, 0, clock) {
        IssuedLevel(n, 0, clock);
      } else {
        IssuedLevel(n, 1, clock);
      }
    }
    DiscoveredPair(dir, l0, l1);
  }

  /** A failed compaction leaves four files with the value 1 in the directory. Four puts of 2 and their
      compaction follow, and the read is 2. A restart then finds the four files again, newer than level 1 by
      their place, and the read is 1 although 2 was written last. */
  lemma RestartAfterFailureLosesAnUpdate()
    returns (states: seq<System>, events: seq<Event>, l0: seq<Name>, l1: seq<Name>)
    ensures IsRun(states, events, Small()) && Initial(states[0], {0})
    ensures var last := states[|states| - 1];
            && last.clients == map[0 := Idle] && last.compactor == Resting && last.logged == map[KEY := [2]]
            && Get(last, KEY) == Some([2])
            && IsDiscovered(last.dir, [l0, l1]) && Enabled(last, Crash({}, l0, l1), Small())
            && Get(AfterCrash(last, l0, l1), KEY) == Some([1])
  {
    hide Rested, Get, View, Enabled, Do, CompactionOutcome, TablesAt, CalmRun, KeepsStrays, IsDiscovered, AfterCrash;
    PutIsOnKey(2);
    DropKeeps([2]);
    var a, ea, m := EmptyTableStopsCompaction();
    var before, after := a[m], a[m + 1];
    var e := [PutOnKey(2), PutOnKey(2), PutOnKey(2), PutOnKey(2)];
    SetFourTimes(map[KEY := [1]], e, [2]);
    var b, eb, k, last := FourThenCompact(after, [], map[KEY := [1]], e, [[2], [2], [2], [2]]);
    LeadsOn(a, ea, b, eb, a[0], after, last);
    states, events := Joined(a, b), ea + eb;
    RestedFacts(last, [], [One([2])], map[KEY := [2]]);
    RestedReads(last, [], [One([2])], map[KEY := [2]], KEY);
    OnlyOne([2]);
    l0, l1 := RestartShadows(before, after, last);
  }

  /** The restart, and what it reads. */
  lemma RestartShadows(before: System, after: System, last: System) returns (l0: seq<Name>, l1: seq<Name>)
    requires Rested(before, [One([1]), One([1]), One([1]), One([1])], [[]], map[KEY := [1]])
    requires KeepsStrays(EmptyStore({0}), before) && after.dir == before.dir && after.l0 == []
    requires Rested(last, [], [One([2])], map[KEY := [2]]) && KeepsStrays(after, last)
    ensures IsDiscovered(last.dir, [l0, l1]) && Enabled(last, Crash({}, l0, l1), Small())
    ensures Get(AfterCrash(last, l0, l1), KEY) == Some([1])
  {
    hide Rested, Get, Enabled, KeepsStrays, IsDiscovered, AfterCrash;
    RestedFacts(last, [], [One([2])], map[KEY := [2]]);
    RestedDirectory(last, [], [One([2])], map[KEY := [2]]);
    l0, l1 := RestartExists(last.dir, last.clock);
    RestartEnabled(last, l0, l1);
    StraysShadow(before, after, last, l0, l1);
  }

  lemma RestedDirectory(s: System, t0: seq<Table>, t1: seq<Table>, logged: KeyValues)
    requires Rested(s, t0, t1, logged)
    ensures DirIssued(s.dir, s.clock) && LogOf(s.dir) == []
  {
    hide TableAt, Issued, LevelOf;
  }

  lemma RestartEnabled(s: System, l0: seq<Name>, l1: seq<Name>)
    requires s.compactor == Resting && IsDiscovered(s.dir, [l0, l1])
    ensures Enabled(s, Crash({}, l0, l1), Small())
  {
    hide IsDiscovered;
    assert s.dir - {} == s.dir;
  }

  /** The files left behind are all of level 0 after the restart. */
  lemma StraysShadow(before: System, after: System, last: System, l0: seq<Name>, l1: seq<Name>)
    requires Rested(before, [One([1]), One([1]), One([1]), One([1])], [[]], map[KEY := [1]])
    requires KeepsStrays(EmptyStore({0}), before) && after.dir == before.dir && after.l0 == []
    requires Rested(last, [], [One([2])], map[KEY := [2]]) && KeepsStrays(after, last)
    requires IsDiscovered(last.dir, [l0, l1])
    ensures Get(AfterCrash(last, l0, l1), KEY) == Some([1])
  {
    hide TableOf, LevelOf, IsDiscovered, View, DirIssued, Issued;
    StartedWithoutStrays(before);
    var tables := TablesAt(last.dir, l0);
    forall n | n in l0 ensures TableAt(last.dir, n) == One([1]) {
      ListedNames(last.dir, l0, l1, n);
      OldFile(before, n);
    }
    StrayIsListed(before, after, last, l0, l1);
    assert l0[|l0| - 1] in l0 && tables[|l0| - 1] == TableAt(last.dir, l0[|l0| - 1]);
    NewestOne(tables, TablesAt(last.dir, l1), [1]);
    ReadTwoLevels(AsStore(AfterCrash(last, l0, l1)), KEY);
    assert AfterCrash(last, l0, l1).mem == map[] by { RestedDirectory(last, [], [One([2])], map[KEY := [2]]); }
  }

  lemma OldFile(s: System, n: Name)
    requires TablesAt(s.dir, s.l0) == [One([1]), One([1]), One([1]), One([1])] && NoStray(s) &&
             s.clients == map[0 := Idle]
    requires FiledUnder(s.dir, n, 0)
    ensures TableAt(s.dir, n) == One([1])
  {
    hide TableAt, LevelOf;
    assert n in s.l0;
    var i :| 0 <= i < |s.l0| && s.l0[i] == n;
    assert TablesAt(s.dir, s.l0)[i] == TableAt(s.dir, n);
  }

  lemma StrayIsListed(before: System, after: System, last: System, l0: seq<Name>, l1: seq<Name>)
    requires TablesAt(before.dir, before.l0) == [One([1]), One([1]), One([1]), One([1])]
    requires AllIssued(before.l0, 0, before.clock) && after.dir == before.dir && after.l0 == []
    requires KeepsStrays(after, last) && IsDiscovered(last.dir, [l0, l1])
    ensures l0 != []
  {
    hide TableOf, LevelOf, IsDiscovered, Issued;
    var n := before.l0[0];
    assert TableAt(before.dir, n) == TablesAt(before.dir, before.l0)[0];
    IssuedLevel(n, 0, before.clock);
    assert FiledUnder(after.dir, n, 0);
    ListedNames(last.dir, l0, l1, n);
  }

  // ---------- a crash among the deletions ----------

  lemma {:induction false} CalmJoins(a: seq<System>, ea: seq<Event>, b: seq<System>, eb: seq<Event>,
                                     s: System, mid: System, last: System)
    requires Leads(a, ea, s, mid) && Leads(b, eb, mid, last) && CalmRun(a, ea) && CalmRun(b, eb)
    ensures CalmRun(Joined(a, b), ea + eb)
  {
    hide Enabled, Do, Calm;
    var all, es := Joined(a, b), ea + eb;
    forall i | 0 <= i < |es| ensures Calm(all[i], es[i]) {
      if i < |ea| {
        assert all[i] == a[i] && es[i] == ea[i];
      } else {
        assert all[i] == b[i - |ea|] && es[i] == eb[i - |ea|];
      }
    }
  }

  lemma NoMergeIsCalm(states: seq<System>, events: seq<Event>)
    requires NoMerge(events) && |events| <= |states|
    ensures CalmRun(states, events)
  {
    hide EndsAgree;
  }

  /** A run in which the only merge meets level-0 tables that are all the same is calm. */
  lemma SameTablesAreCalm(states: seq<System>, events: seq<Event>, m: nat, t: Table, t1: seq<Table>, logged: KeyValues)
    requires m < |events| <= |states| && events[m] == Merge && NoMerge(events[..m]) && NoMerge(events[m + 1..])
    requires Rested(states[m], [t, t, t, t], t1, logged) && NoStray(states[m])
    ensures CalmRun(states, events)
  {
    hide TableAt, Issued, EndsAgree, NoStray, DirIssued;
    SameTablesAgree(t);
    forall i | 0 <= i < |events| ensures Calm(states[i], events[i]) {
      if i < m {
        assert events[..m][i] == events[i];
      } else if i > m {
        assert events[m + 1..][i - m - 1] == events[i];
      }
    }
  }

  lemma SameTablesAgree(t: Table)
    ensures EndsAgree([t, t, t, t])
  {
    hide FirstHit;
    var ts := [t, t, t, t];
    forall i | 0 <= i < 4 ensures Reversed(ts)[i] == t {
      ReversedAt(ts, i);
    }
    assert Reversed(ts) == ts;
  }

  /** Deleting all of level 0 from the directory. */
  lemma WithoutLevel0(dir: Directory, l0: seq<Name>, l1: seq<Name>)
    requires IsDiscovered(dir, [l0, l1])
    ensures IsDiscovered(dir - SetOf(l0), [[], l1])
    ensures TablesAt(dir - SetOf(l0), l1) == TablesAt(dir, l1)
  {
    hide LevelOf, NameLess, TableOf;
    var after := dir - SetOf(l0);
    DiscoveredPair(dir, l0, l1);
    DiscoveredPair(after, [], l1);
    forall n, i: nat ensures FiledUnder(after, n, i) <==> FiledUnder(dir, n, i) && i != 0 {
      InSetOf(l0, n);
      ListedNames(dir, l0, l1, n);
    }
    forall i | 0 <= i < |l1| ensures TableAt(after, l1[i]) == TableAt(dir, l1[i]) {
      assert l1[i] in l1;
      ListedNames(dir, l0, l1, l1[i]);
      assert FiledUnder(after, l1[i], 1);
    }
  }

  /** The reads of a restart that finds level 0 deleted and an old level-1 file next to the merged one. */
  lemma StaleFileReads(s: System, output: Name, old1: Bytes, merged: Table)
    requires IsDiscovered(s.dir, [s.l0, s.l1 + [output]]) && LogMem(s.dir) == map[] && old1 != TOMBSTONE
    requires TablesAt(s.dir, s.l1 + [output]) == [One(old1), merged]
    ensures var dir := s.dir - SetOf(s.l0);
            && IsDiscovered(dir, [[], s.l1 + [output]])
            && Get(AfterCrash(s.(dir := dir), [], s.l1 + [output]), KEY) == Some(old1)
  {
    hide IsDiscovered, LevelOf, TableOf, Replayed, MemOf, Lookup, SetOf;
    var dir, found := s.dir - SetOf(s.l0), s.l1 + [output];
    WithoutLevel0(s.dir, s.l0, found);
    assert LogMem(dir) == map[] by { LogStays(s, found); }
    var after := AfterCrash(s.(dir := dir), [], found);
    ReadTwoLevels(AsStore(after), KEY);
    NoFiles(dir);
    OneRecord(KEY, old1);
    assert Reversed<Table>([]) + [One(old1), merged] == [One(old1), merged];
    FirstHitAt([One(old1), merged], KEY, 0);
  }

  lemma LogStays(s: System, l1: seq<Name>)
    requires IsDiscovered(s.dir, [s.l0, l1])
    ensures LogOf(s.dir - SetOf(s.l0)) == LogOf(s.dir)
  {
    hide IsDiscovered, LevelOf, SetOf;
    WalIsSkipped();
    ListedNames(s.dir, s.l0, l1, WAL_NAME);
    InSetOf(s.l0, WAL_NAME);
  }

  /** The first step of a compaction, on its own. */
  lemma MergeOnly(s: System, value: Bytes, first: Bytes, logged: KeyValues)
    requires Rested(s, [One(value), One(value), One(value), One(value)], [One(first)], logged) && TwoDigits(s.clock)
    requires |value| < 20 && |first| < 20 && value != TOMBSTONE && NoStray(s)
    ensures CanMerge(s, Small())
    ensures var after := AfterMerge(s, Small());
            && Leads([s, after], [Merge], s, after) && CalmRun([s, after], [Merge])
            && after.l0 == s.l0 && after.l1 == s.l1 && after.logged == logged && after.mem == map[]
            && after.clients == map[0 := Idle]
            && after.compactor == Merged(s.l0 + s.l1, [], LevelName(1, s.clock))
            && TablesAt(after.dir, s.l1 + [LevelName(1, s.clock)]) == [One(first), One(value)]
  {
    hide NoStray, DirIssued, Issued, EndsAgree, TableAt, LevelName, WithOutput, Compacted, FileFits, L1Part, Inputs;
    hide FirstOf, NonEmpty, Decimal;
    var t0 := [One(value), One(value), One(value), One(value)];
    OnesAreOnKey([value, value, value, value], t0);
    OnesAreOnKey([first], [One(first)]);
    MergeFacts(s, t0, [One(first)], logged);
    SameTablesAgree(One(value));
    DropKeeps(value);
    DropFits(One(value));
    OutputFile(s, One(value));
    OtherNames(s.l1, 1, s.clock, LevelName(1, s.clock));
    var after := AfterMerge(s, Small());
    MergeEnabled(s);
    TablesAtConcat(after.dir, s.l1, [LevelName(1, s.clock)]);
    TablesAtOne(after.dir, LevelName(1, s.clock));
    assert TablesAt(after.dir, s.l1) == [One(first)];
  }

  lemma MergeEnabled(s: System)
    requires CanMerge(s, Small())
    ensures IsRun([s, AfterMerge(s, Small())], [Merge], Small())
  {
    hide CanMerge, WithOutput, L1Part, Inputs;
    assert CanMerge(s, Small());
  }

  lemma MergedDirectory(s: System)
    requires Inv(s, Small()) && s.compactor.Merged? && s.clients == map[0 := Idle] && s.mem == map[]
    ensures IsDiscovered(s.dir, [s.l0, s.l1 + [s.compactor.output]]) && LogMem(s.dir) == map[]
  {
    hide IsDiscovered, LogMem, DurableInv, MergeInProgress;
    DurableClean(s, Small());
    assert Base0(s) + Recovery.Pending(s) == s.l0;
  }

  /** The key is set to 1 and compacted into level 1, then set to 2 until a compaction is due. */
  lemma StaleRun() returns (states: seq<System>, events: seq<Event>, last: System)
    ensures Leads(states, events, EmptyStore({0}), last) && CalmRun(states, events) && last.clock == 19
    ensures Rested(last, [One([2]), One([2]), One([2]), One([2])], [One([1])], map[KEY := [2]]) && NoStray(last)
  {
    hide Rested, CalmRun, Joined, Enabled, Do, KeepsStrays, NoStray;
    BeginsRested();
    PutIsOnKey(1);
    PutIsOnKey(2);
    DropKeeps([1]);
    OnesAreOnKey([[1]], [One([1])]);
    var e1 := [PutOnKey(1), PutOnKey(1), PutOnKey(1), PutOnKey(1)];
    var e2 := [PutOnKey(2), PutOnKey(2), PutOnKey(2), PutOnKey(2)];
    SetFourTimes(map[], e1, [1]);
    SetFourTimes(map[KEY := [1]], e2, [2]);
    var a, ea, m, mid := FourThenCompact(EmptyStore({0}), [], map[], e1, [[1], [1], [1], [1]]);
    StartedWithoutStrays(a[m]);
    SameTablesAreCalm(a, ea, m, One([1]), [], map[KEY := [1]]);
    var b, eb;
    b, eb, last := FourWrites(mid, [One([1])], map[KEY := [1]], e2, [[2], [2], [2], [2]]);
    NoMergeIsCalm(b, eb);
    LeadsOn(a, ea, b, eb, EmptyStore({0}), mid, last);
    CalmJoins(a, ea, b, eb, EmptyStore({0}), mid, last);
    StraysOn(EmptyStore({0}), mid, last);
    StartedWithoutStrays(last);
    states, events := Joined(a, b), ea + eb;
  }

  lemma SetFourTimes(logged: KeyValues, e: seq<WalEntry>, value: Bytes)
    requires |e| == 4 && (forall i | 0 <= i < 4 :: e[i] == Put(KEY, value)) && logged.Keys <= {KEY}
    ensures Applied(Applied(Applied(Applied(logged, e[0]), e[1]), e[2]), e[3]) == map[KEY := value]
  {
  }

  /** A crash after the level-0 inputs were deleted and before the old level-1 input was brings an old value
      back, even in a calm run: 1 is compacted into level 1, the key is set to 2, and the compaction that
      merges both dies between its deletions. A crash before any deletion loses nothing, and leaves two level-1
      files with the same range. */
  lemma CrashAmongDeletesLosesAnUpdate() returns (states: seq<System>, events: seq<Event>)
    ensures IsRun(states, events, Small()) && Initial(states[0], {0}) && CalmRun(states, events)
    ensures var s := states[|states| - 1];
            && s.compactor.Merged? && s.compactor.inputs == s.l0 + s.l1 && s.logged == map[KEY := [2]]
            && var gone, found := SetOf(s.l0), s.l1 + [s.compactor.output];
               && Enabled(s, Crash(gone, [], found), Small())
               && Get(Do(s, Crash(gone, [], found), Small()), KEY) == Some([1])
               && Enabled(s, Crash({}, s.l0, found), Small()) && !Disjoint(TablesAt(s.dir, found))
  {
    hide Rested, Get, Enabled, Do, IsDiscovered, LogMem, CalmRun, LevelName, TablesAt, AfterMerge, Joined, Inv;
    hide FileFits;
    hide Inputs, NonEmpty, Compacted, NoStray;
    BeginsRested();
    var a, ea, full := StaleRun();
    MergeOnly(full, [2], [1], map[KEY := [2]]);
    var last := AfterMerge(full, Small());
    LeadsOn(a, ea, [full, last], [Merge], EmptyStore({0}), full, last);
    CalmJoins(a, ea, [full, last], [Merge], EmptyStore({0}), full, last);
    states, events := Joined(a, [full, last]), ea + [Merge];
    RunKeepsInv(states, events, Small(), |states| - 1);
    MergedDirectory(last);
    StaleFileReads(last, last.compactor.output, [1], One([2]));
    var found := last.l1 + [last.compactor.output];
    CrashesEnabled(last, found);
    SameRange(TablesAt(last.dir, found));
  }

  lemma CrashesEnabled(s: System, found: seq<Name>)
    requires s.compactor.Merged? && s.compactor.inputs == s.l0 + s.l1
    requires IsDiscovered(s.dir, [s.l0, found]) && IsDiscovered(s.dir - SetOf(s.l0), [[], found])
    ensures Enabled(s, Crash({}, s.l0, found), Small()) && Enabled(s, Crash(SetOf(s.l0), [], found), Small())
    ensures Do(s, Crash(SetOf(s.l0), [], found), Small()) == AfterCrash(s.(dir := s.dir - SetOf(s.l0)), [], found)
  {
    hide IsDiscovered;
    assert s.dir - {} == s.dir;
    assert SetOf(s.l0) <= SetOf(s.l0 + s.l1) by {
      assert forall i | 0 <= i < |s.l0| :: (s.l0 + s.l1)[i] == s.l0[i];
    }
  }

  lemma SameRange(ts: seq<Table>)
    requires ts == [One([1]), One([2])]
    ensures !Disjoint(ts)
  {
    LessIrreflexive(KEY);
    assert ts[0] != [] && ts[1] != [] && Overlap(RangeOf(ts[0]), RangeOf(ts[1]));
  }
}
