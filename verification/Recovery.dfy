/** One client thread, the compaction thread, and process crashes between any two steps: every
    completed append is readable, now and after any restart. */
module Recovery {
  import opened Wrappers
  import opened Bytes
  import opened Names
  import opened Storage
  import opened Tables
  import opened SsTableFormat
  import opened WalFormat
  import opened MemTable
  import opened Compaction
  import opened LevelTables
  import opened Levels
  import opened Wal
  import opened Stores
  import opened Machine
  import opened Durable

  /** The level-0 files of the directory apart from one not yet registered. */
  function Base0(s: System): seq<Name> {
    match s.compactor
    case Resting => s.drained0 + s.l0
    case Merged(_, _, _) => s.l0
    case Deleted(_, _) => []
  }

  /** A level-0 file that is in the directory and not yet registered. */
  function Pending(s: System): seq<Name> {
    var pc := PcOf(s, 0);
    if pc.Renamed? || pc.Truncated? then [pc.name] else []
  }

  /** The level-1 files of the directory. */
  function Files1(s: System): seq<Name> {
    match s.compactor
    case Resting => s.drained1 + s.l1
    case Merged(_, _, output) => s.l1 + [output]
    case Deleted(kept, output) => kept + [output]
  }

  /** How the memtable, the log and the flush in progress fit together. */
  ghost predicate ClientInv(s: System, c: Config) {
    var log := LogMem(s.dir);
    match PcOf(s, 0)
    case Idle => s.mem == log
    case Full => s.mem == log
    case Named(name) => s.mem == log && IsNext(s, name, c)
    case Logged(entry) => Applied(s.mem, entry) == log
    case Swapped(name, table) => s.mem == map[] && table == log && IsNext(s, name, c)
    case Renamed(name, table) => s.mem == map[] && table == log && TableAt(s.dir, name) == Entries(table)
    case Truncated(name, table) => s.mem == map[] && log == map[] && TableAt(s.dir, name) == Entries(table)
  }

  /** The name was handed out and sorts after every level-0 file. */
  ghost predicate IsNext(s: System, name: Name, c: Config) {
    NamedIn(name, 0, s.clock, c.width) && forall i | 0 <= i < |Base0(s)| :: NameLess(Base0(s)[i], name)
  }

  /** A merge in progress was safe to start, and its output is the merge of its inputs. */
  ghost predicate CompactorInv(s: System) {
    && (s.compactor.Merged? ==> MergeInProgress(s.dir, s.l0, s.l1, s.compactor))
    && (s.drained0 == [] ==> s.drained1 == []) && (!s.compactor.Resting? ==> s.drained0 == [])
  }

  ghost predicate MergeInProgress(dir: Directory, l0: seq<Name>, l1: seq<Name>, compactor: Compactor)
    requires compactor.Merged?
  {
    && Mergeable(dir, l0, l1) && EndsAgree(TablesAt(dir, l0))
    && compactor.inputs == MergeInputs(dir, l0, l1)
    && compactor.kept == L1Part([l0, l1], dir, false)
    && TableAt(dir, compactor.output) == MergedTable(dir, l0, l1)
  }

  ghost predicate DurableOf(s: System, c: Config) {
    DurableInv(s.dir, s.logged, Base0(s), Pending(s), Files1(s), s.clock, c.width)
  }

  ghost predicate Inv(s: System, c: Config) {
    s.clients.Keys == {0} && DurableOf(s, c) && ClientInv(s, c) && CompactorInv(s)
  }

  /** Every level-0 file of the directory is in the list, or is the one about to be. */
  ghost predicate NoStray(s: System) {
    forall name | FiledUnder(s.dir, name, 0) :: name in s.l0 || name in Pending(s)
  }

  /** Compactions start only when no level-0 file was left behind by a failed one, and no key has different
      oldest and newest level-0 records: the exact condition under which the code's hand-over order preserves
      lookups. No crash falls between the deletions of a compaction. */
  ghost predicate Calm(s: System, e: Event) {
    && (e.Merge? ==> EndsAgree(TablesAt(s.dir, s.l0)) && NoStray(s))
    && (e.Crash? ==> e.gone == {})
  }

  // ---------- a merge in progress survives changes elsewhere in the directory ----------

  lemma SelectNamesSame(a: Directory, b: Directory, names: seq<Name>, hull: Range, meets: bool)
    requires NonEmpty(a, names) && TablesAt(a, names) == TablesAt(b, names)
    ensures NonEmpty(b, names) && SelectNames(b, names, hull, meets) == SelectNames(a, names, hull, meets)
    decreases names
  {
    hide TableAt, Overlap;
    forall i | 0 <= i < |names| ensures TableAt(a, names[i]) == TableAt(b, names[i]) {
      assert TablesAt(a, names)[i] == TableAt(a, names[i]);
      assert TablesAt(b, names)[i] == TableAt(b, names[i]);
    }
    if names != [] {
      assert TablesAt(a, names[1..]) == TablesAt(a, names)[1..] && TablesAt(b, names[1..]) == TablesAt(b, names)[1..];
      SelectNamesSame(a, b, names[1..], hull, meets);
    }
  }

  lemma MergeCarriesOver(a: Directory, b: Directory, l0: seq<Name>, l1: seq<Name>, compactor: Compactor)
    requires compactor.Merged? && MergeInProgress(a, l0, l1, compactor)
    requires Agrees(a, b, l0) && Agrees(a, b, l1) && TableAt(b, compactor.output) == TableAt(a, compactor.output)
    ensures MergeInProgress(b, l0, l1, compactor)
  {
    hide TableAt, IsSsTable, Consistent, TombstoneFree, EndsAgree, Agrees, HullOf, SelectNames, NonEmpty;
    AgreeingTables(a, b, l0);
    AgreeingTables(a, b, l1);
    NonEmptyTables(a, l0);
    NonEmptyTables(b, l0);
    var hull := HullOf(TablesAt(a, l0));
    SelectNamesSame(a, b, l1, hull, true);
    SelectNamesSame(a, b, l1, hull, false);
    MergeableTables(a, l0, l1);
    MergeableTables(b, l0, l1);
  }

  /** A write under a name the scan skips leaves a merge in progress and a pending file alone. */
  lemma TrackedAgree(s: System, c: Config, x: Name, bytes: Bytes)
    requires DurableOf(s, c) && LevelOf(x).None? && CompactorInv(s)
    ensures var after := s.dir[x := bytes];
            && (s.compactor.Merged? ==> MergeInProgress(after, s.l0, s.l1, s.compactor))
            && (Pending(s) != [] ==> TableAt(after, Pending(s)[0]) == TableAt(s.dir, Pending(s)[0]))
  {
    hide LevelOf, MergeInProgress, TableOf, AreSsTables, AllNamedIn, Consistent, TombstoneFree, View, Clean;
    hide IsDiscovered, LogMem, TablesAt, Applied;
    var after := s.dir[x := bytes];
    SkippedNameAdded(s.dir, x, bytes, Base0(s) + Pending(s), Files1(s));
    if s.compactor.Merged? {
      assert s.l1 + [s.compactor.output] == Files1(s);
      assert (s.l1 + [s.compactor.output])[|s.l1|] == s.compactor.output;
      NotInParts(s.l0, Pending(s), x);
      NotInParts(s.l1, [s.compactor.output], x);
      SkippedAgrees(s.dir, x, bytes, s.l0);
      SkippedAgrees(s.dir, x, bytes, s.l1);
      MergeCarriesOver(s.dir, after, s.l0, s.l1, s.compactor);
    }
    if Pending(s) != [] {
      NotInParts(Base0(s), Pending(s), x);
      assert Pending(s)[0] in Pending(s);
    }
  }

  lemma NotInParts(a: seq<Name>, b: seq<Name>, x: Name)
    requires x !in a + b
    ensures x !in a && x !in b
  {
    assert forall i | 0 <= i < |a| :: (a + b)[i] == a[i];
    assert forall i | 0 <= i < |b| :: (a + b)[|a| + i] == b[i];
  }

  // ---------- every step keeps the invariant ----------

  lemma InvAppend(s: System, t: Tid, entry: WalEntry, c: Config)
    requires Inv(s, c) && CanAppend(s, t, entry)
    ensures Inv(AfterAppend(s, t, entry), c)
  {
    hide DurableInv, MergeInProgress, Applied, Clean, Encoding, TableAt, LogOf, LogMem;
    WalIsSkipped();
    TrackedAgree(s, c, WAL_NAME, LogOf(s.dir) + Encoding(entry));
    DurableAppend(s.dir, s.logged, Base0(s), Pending(s), Files1(s), s.clock, c.width, entry);
    assert Clean(LogOf(s.dir)) by { DurableClean(s, c); }
    LogAfterAppend(s.dir, entry);
  }

  lemma DurableClean(s: System, c: Config)
    requires DurableOf(s, c)
    ensures Clean(LogOf(s.dir)) && WAL_NAME in s.dir
    ensures IsDiscovered(s.dir, [Base0(s) + Pending(s), Files1(s)])
    ensures AllNamedIn(Base0(s) + Pending(s), 0, s.clock, c.width)
  {
    hide AreSsTables, AllNamedIn, Consistent, TombstoneFree, View, Clean, IsDiscovered, LogMem, TablesAt;
  }

  lemma InvInsert(s: System, t: Tid, c: Config)
    requires Inv(s, c) && CanInsert(s, t)
    ensures Inv(AfterInsert(s, t, c), c)
  {
    hide DurableInv, MergeInProgress, Applied, LogMem, MustFlush;
  }

  lemma InvChooseName(s: System, t: Tid, c: Config)
    requires Inv(s, c) && CanChooseName(s, t, c)
    ensures Inv(AfterChooseName(s, t), c)
  {
    hide DurableInv, MergeInProgress, LogMem, LevelName, TableAt, Applied, IsNext, Entries;
    DurableLater(s.dir, s.logged, Base0(s), Pending(s), Files1(s), s.clock, s.clock + 1, c.width);
    ChosenIsNext(s, AfterChooseName(s, t), c);
  }

  lemma ChosenIsNext(s: System, after: System, c: Config)
    requires DurableOf(s, c) && Tick(s, c) && Pending(s) == []
    requires after.l0 == s.l0 && after.compactor == s.compactor && after.clock == s.clock + 1
    requires after.drained0 == s.drained0
    ensures IsNext(after, LevelName(0, s.clock), c)
  {
    hide DurableInv, LevelName, NameLess, AllNamedIn, IsDiscovered, Decimal;
    DurableClean(s, c);
    assert Base0(s) + [] == Base0(s);
    NewestName(Base0(s), 0, s.clock, c.width);
  }

  lemma InvSwap(s: System, t: Tid, c: Config)
    requires Inv(s, c) && CanSwap(s, t)
    ensures Inv(AfterSwap(s, t), c)
  {
    hide DurableInv, MergeInProgress, LogMem, NameLess, NamedIn;
  }

  lemma InvScribble(s: System, target: Name, bytes: Bytes, c: Config)
    requires Inv(s, c)
    ensures Inv(AfterScribble(s, target, bytes), c)
  {
    hide DurableInv, MergeInProgress, TmpName, TableAt, Replayed, MemOf, NameLess, NamedIn, LevelOf, Entries, Applied;
    TmpAndWalAreSkipped(target);
    TrackedAgree(s, c, TmpName(target), bytes);
    DurableScribble(s.dir, s.logged, Base0(s), Pending(s), Files1(s), s.clock, c.width, target, bytes);
    assert LogOf(s.dir[TmpName(target) := bytes]) == LogOf(s.dir);
  }

  /** The new file of a flush disturbs no merge in progress. */
  lemma RenameKeepsMerge(s: System, c: Config, name: Name, bytes: Bytes)
    requires DurableOf(s, c) && CompactorInv(s) && Pending(s) == [] && IsNext(s, name, c)
    ensures var after := (s.dir - {TmpName(name)})[name := bytes];
            s.compactor.Merged? ==> MergeInProgress(after, s.l0, s.l1, s.compactor)
  {
    hide MergeInProgress, TableOf, AreSsTables, AllNamedIn, Consistent, TombstoneFree, View, Clean, NameLess;
    hide IsDiscovered, LogMem, TablesAt, TmpName, LevelOf, NamedIn, FiledUnder;
    if s.compactor.Merged? {
      var cleared := s.dir - {TmpName(name)};
      var after := cleared[name := bytes];
      assert s.l0 + [] == s.l0;
      TmpAndWalAreSkipped(name);
      NamedInIsListed(name, 0, s.clock, c.width);
      SkippedNameAdded(s.dir, TmpName(name), [], s.l0, Files1(s));
      NameAdded(cleared, name, bytes, 0, s.l0, Files1(s), s.l0);
      assert (s.l1 + [s.compactor.output])[|s.l1|] == s.compactor.output;
      NotInParts(s.l1, [s.compactor.output], name);
      NotInParts(s.l1, [s.compactor.output], TmpName(name));
      BothSkipped(s.dir, TmpName(name), name, bytes, s.l0);
      BothSkipped(s.dir, TmpName(name), name, bytes, s.l1);
      MergeCarriesOver(s.dir, after, s.l0, s.l1, s.compactor);
    }
  }

  lemma BothSkipped(dir: Directory, x: Name, y: Name, bytes: Bytes, names: seq<Name>)
    requires x !in names && y !in names
    ensures Agrees(dir, (dir - {x})[y := bytes], names)
  {
  }

  lemma InvRename(s: System, t: Tid, c: Config)
    requires Inv(s, c) && CanRename(s, t, c)
    ensures Inv(AfterRename(s, t, c), c)
  {
    hide DurableInv, MergeInProgress, TableAt, LogMem, NameLess, NamedIn, Entries, FileFits, FileBytes, TmpName;
    var name, table := PcOf(s, 0).name, PcOf(s, 0).table;
    DurableRename(s.dir, s.logged, Base0(s), Files1(s), s.clock, c.width, name, table, c.sizing(|table|));
    RenameKeepsMerge(s, c, name, FileBytes(Entries(table), c.sizing(|table|)));
  }

  lemma InvTruncate(s: System, t: Tid, c: Config)
    requires Inv(s, c) && PcOf(s, t).Renamed?
    ensures Inv(AfterTruncate(s, t), c)
  {
    hide DurableInv, MergeInProgress, TableAt, LogMem, Entries;
    var name := PcOf(s, 0).name;
    WalIsSkipped();
    TrackedAgree(s, c, WAL_NAME, []);
    DurableTruncate(s.dir, s.logged, Base0(s), name, Files1(s), s.clock, c.width);
    LogAfterTruncate(s.dir);
  }

  lemma InvRegister(s: System, t: Tid, c: Config)
    requires Inv(s, c) && CanRegister(s, t)
    ensures Inv(AfterRegister(s, t), c)
  {
    hide DurableInv, MergeInProgress, TableAt, LogMem, Entries;
    DurableRegister(s.dir, s.logged, Base0(s), Pending(s), Files1(s), s.clock, c.width);
    var after := AfterRegister(s, t);
    assert Base0(after) == Base0(s) + Pending(s) && Files1(after) == Files1(s);
  }

  lemma InvMerge(s: System, c: Config)
    requires Inv(s, c) && CanMerge(s, c) && Calm(s, Merge)
    ensures Inv(AfterMerge(s, c), c)
  {
    hide Inv, NoStray;
    NothingDrained(s, c);
    InvMergeTracked(s, c);
  }

  lemma InvMergeTracked(s: System, c: Config)
    requires Inv(s, c) && CanMerge(s, c) && s.drained0 == [] && s.drained1 == [] && EndsAgree(TablesAt(s.dir, s.l0))
    ensures Inv(AfterMerge(s, c), c)
  {
    hide TableAt, LogMem, Entries, EndsAgree, FileFits, NonEmpty, DurableInv, LogOf, WithOutput, MergeInProgress;
    hide Inputs;
    hide LevelName, L1Part, NameLess, NamedIn, Decimal, Applied;
    assert Base0(s) == s.l0 && Files1(s) == s.l1;
    var after := AfterMerge(s, c);
    MergedIsDurable(s, c);
    ClientKept(s, after, c);
    assert Base0(after) == s.l0 && Files1(after) == s.l1 + [LevelName(1, s.clock)] && Pending(after) == Pending(s);
  }

  /** What the merge does to the directory. */
  lemma MergedIsDurable(s: System, c: Config)
    requires DurableInv(s.dir, s.logged, s.l0, Pending(s), s.l1, s.clock, c.width)
    requires Base0(s) == s.l0 && Files1(s) == s.l1 && CanMerge(s, c) && EndsAgree(TablesAt(s.dir, s.l0))
    ensures var after, output := AfterMerge(s, c), LevelName(1, s.clock);
            && DurableInv(after.dir, s.logged, s.l0, Pending(s), s.l1 + [output], s.clock + 1, c.width)
            && MergeInProgress(after.dir, s.l0, s.l1, after.compactor) && LogOf(after.dir) == LogOf(s.dir)
            && forall n | n in Pending(s) :: TableAt(after.dir, n) == TableAt(s.dir, n)
  {
    hide TableAt, LogMem, Entries, EndsAgree, FileFits, FileBytes, NonEmpty, IsSsTable, Consistent, TombstoneFree;
    hide View, Clean, IsDiscovered, AllNamedIn, TmpName, NamedIn, NameLess, LevelName, Agrees, SelectNames, Compacted;
    hide MergeInProgress, HullOf, LogOf;
    var output := LevelName(1, s.clock);
    var shape := c.sizing(TotalRecords(TablesAt(s.dir, Inputs(s))));
    var after := WithTable(s.dir, output, MergedTable(s.dir, s.l0, s.l1), shape);
    PartOfTables(s.dir, s.l0, Pending(s));
    assert Mergeable(s.dir, s.l0, s.l1);
    DurableMerge(s.dir, s.logged, s.l0, Pending(s), s.l1, s.clock, c.width, shape);
    assert after == AfterMerge(s, c).dir;
    AgreesOnParts(s.dir, after, s.l0, Pending(s));
    MergeStarts(s, c, after, output);
    PendingIsThere(s, c, after);
  }

  /** Without stray files, no compaction has failed since the last restart. */
  lemma NothingDrained(s: System, c: Config)
    requires Inv(s, c) && NoStray(s)
    ensures s.drained0 == [] && s.drained1 == []
  {
    hide DurableInv, LogMem, ClientInv, MergeInProgress, IsDiscovered, LevelOf, NameLess;
    if s.drained0 != [] {
      var files := Base0(s) + Pending(s);
      assert files[|s.drained0|..] == s.l0 + Pending(s);
      DurableClean(s, c);
      DiscoveredPair(s.dir, files, Files1(s));
      FirstIsAlone(files, |s.drained0|);
      ListedNames(s.dir, files, Files1(s), files[0]);
    }
  }

  lemma FirstIsAlone(names: seq<Name>, k: nat)
    requires NamesSorted(names) && 0 < k <= |names|
    ensures names[0] !in names[k..]
  {
    hide NameLess;
    NameLessIrreflexive(names[0]);
    forall i | 0 <= i < |names| - k ensures names[k..][i] != names[0] {
      assert NameLess(names[0], names[k + i]);
    }
  }

  lemma PartOfTables(dir: Directory, a: seq<Name>, b: seq<Name>)
    requires AreSsTables(dir, a + b)
    ensures AreSsTables(dir, a)
  {
    hide IsSsTable;
    assert forall i | 0 <= i < |a| :: (a + b)[i] == a[i];
  }

  lemma AgreesOnParts(dir: Directory, after: Directory, a: seq<Name>, b: seq<Name>)
    requires Agrees(dir, after, a + b)
    ensures Agrees(dir, after, a) && Agrees(dir, after, b)
  {
    assert forall i | 0 <= i < |a| :: (a + b)[i] == a[i];
    assert forall i | 0 <= i < |b| :: (a + b)[|a| + i] == b[i];
  }

  /** Right after the merge, its inputs are what they were. */
  lemma MergeStarts(s: System, c: Config, after: Directory, output: Name)
    requires Mergeable(s.dir, s.l0, s.l1) && EndsAgree(TablesAt(s.dir, s.l0))
    requires Agrees(s.dir, after, s.l0) && Agrees(s.dir, after, s.l1)
    requires TableAt(after, output) == MergedTable(s.dir, s.l0, s.l1)
    ensures MergeInProgress(after, s.l0, s.l1, Merged(Inputs(s), L1Part([s.l0, s.l1], s.dir, false), output))
  {
    hide TableAt, IsSsTable, Consistent, TombstoneFree, EndsAgree, Agrees, HullOf, SelectNames, NonEmpty;
    AgreeingTables(s.dir, after, s.l0);
    AgreeingTables(s.dir, after, s.l1);
    NonEmptyTables(s.dir, s.l0);
    NonEmptyTables(after, s.l0);
    var hull := HullOf(TablesAt(s.dir, s.l0));
    SelectNamesSame(s.dir, after, s.l1, hull, true);
    SelectNamesSame(s.dir, after, s.l1, hull, false);
    MergeableTables(s.dir, s.l0, s.l1);
    MergeableTables(after, s.l0, s.l1);
  }

  /** Compaction steps and time leave the client's side of the invariant alone. */
  lemma ClientKept(s: System, after: System, c: Config)
    requires ClientInv(s, c) && after.mem == s.mem && after.clients == s.clients && after.clock >= s.clock
    requires LogOf(after.dir) == LogOf(s.dir)
    requires forall n | n in Pending(s) :: TableAt(after.dir, n) == TableAt(s.dir, n)
    requires forall n | n in Base0(after) :: n in Base0(s)
    ensures ClientInv(after, c)
  {
    hide TableAt, Replayed, MemOf, LevelName, NameLess, Entries, LogOf;
    var pc := PcOf(s, 0);
    assert PcOf(after, 0) == pc;
    if pc.Named? || pc.Swapped? {
      NextKept(s, after, pc.name, c);
    }
    if pc.Renamed? || pc.Truncated? {
      assert pc.name in Pending(s);
    }
  }

  lemma NextKept(s: System, after: System, name: Name, c: Config)
    requires IsNext(s, name, c) && after.clock >= s.clock && forall n | n in Base0(after) :: n in Base0(s)
    ensures IsNext(after, name, c)
  {
    hide LevelName, NameLess;
    forall i | 0 <= i < |Base0(after)| ensures NameLess(Base0(after)[i], name) {
      assert Base0(after)[i] in Base0(s);
    }
  }

  lemma PendingIsThere(s: System, c: Config, after: Directory)
    requires DurableOf(s, c) && Agrees(s.dir, after, Pending(s))
    ensures forall n | n in Pending(s) :: TableAt(after, n) == TableAt(s.dir, n)
  {
    hide TableOf, AreSsTables, AllNamedIn, Consistent, TombstoneFree, View, Clean, LogMem, TablesAt, IsDiscovered;
    forall n | n in Pending(s) ensures TableAt(after, n) == TableAt(s.dir, n) {
      assert n in Base0(s) + Pending(s);
      ListedNames(s.dir, Base0(s) + Pending(s), Files1(s), n);
    }
  }

  lemma InvDelete(s: System, c: Config)
    requires Inv(s, c) && s.compactor.Merged?
    ensures Inv(AfterDelete(s), c)
  {
    hide TableAt, LogMem, Entries, EndsAgree, Mergeable, L1Part, MergeInputs, MergedTable, SetOf, Agrees, DurableInv;
    hide LogOf;
    var after := AfterDelete(s);
    DurableDelete(s.dir, s.logged, s.l0, Pending(s), s.l1, s.compactor.output, s.clock, c.width);
    PendingIsThere(s, c, after.dir);
    ClientKept(s, after, c);
  }

  lemma InvPublish(s: System, c: Config)
    requires Inv(s, c) && s.compactor.Deleted?
    ensures Inv(AfterPublish(s), c)
  {
    hide TableAt, LogMem, Entries, DurableInv;
    ClientKept(s, AfterPublish(s), c);
    assert Base0(AfterPublish(s)) == Base0(s) && Files1(AfterPublish(s)) == Files1(s);
  }

  lemma FailKeepsFiles(s: System)
    requires CanFail(s)
    ensures var after := AfterFail(s);
            && Base0(after) == Base0(s) && Files1(after) == Files1(s) && Pending(after) == Pending(s)
            && after.drained0 != []
  {
    hide NonEmpty;
  }

  /** A failed compaction drops names from the lists and leaves the directory alone. */
  lemma InvFail(s: System, c: Config)
    requires Inv(s, c) && CanFail(s)
    ensures Inv(AfterFail(s), c)
  {
    hide DurableInv, MergeInProgress, LogMem, NonEmpty, TableAt, Entries, Applied, NamedIn, NameLess;
    FailKeepsFiles(s);
    ClientKept(s, AfterFail(s), c);
  }

  lemma InvCrash(s: System, l0: seq<Name>, l1: seq<Name>, c: Config)
    requires Inv(s, c) && IsDiscovered(s.dir, [l0, l1])
    ensures Inv(AfterCrash(s, l0, l1), c)
    ensures l0 == Base0(s) + Pending(s) && l1 == Files1(s)
  {
    hide TableAt, DurableInv, Replayed, MemOf, IsDiscovered;
    DurableClean(s, c);
    DiscoveryIsUnique(s.dir, [l0, l1], [Base0(s) + Pending(s), Files1(s)]);
    assert [l0, l1][0] == l0 && [l0, l1][1] == l1;
    DurableRegister(s.dir, s.logged, Base0(s), Pending(s), Files1(s), s.clock, c.width);
    assert Base0(AfterCrash(s, l0, l1)) == l0 && Files1(AfterCrash(s, l0, l1)) == l1;
  }

  lemma InvStep(s: System, e: Event, c: Config)
    requires Inv(s, c) && Enabled(s, e, c) && Calm(s, e)
    ensures Inv(Do(s, e, c), c)
  {
    hide Inv, Calm, CanAppend, CanInsert, CanChooseName, CanSwap, CanRename, CanRegister, CanMerge, IsDiscovered;
    hide AfterAppend, AfterInsert, AfterChooseName, AfterSwap, AfterRename, AfterTruncate, AfterRegister;
    hide AfterMerge, AfterDelete, AfterPublish, AfterScribble, AfterCrash, PcOf, AfterFail, CanFail, MayBeGone;
    match e
    case Append(t, entry) => InvAppend(s, t, entry, c);
    case Insert(t) => InvInsert(s, t, c);
    case ChooseName(t) => InvChooseName(s, t, c);
    case Swap(t) => InvSwap(s, t, c);
    case Scribble(target, bytes) => InvScribble(s, target, bytes, c);
    case Rename(t) => InvRename(s, t, c);
    case Truncate(t) => InvTruncate(s, t, c);
    case Register(t) => InvRegister(s, t, c);
    case Merge => InvMerge(s, c);
    case DeleteInputs => InvDelete(s, c);
    case Publish => InvPublish(s, c);
    case Fail => InvFail(s, c);
    case Crash(gone, l0, l1) =>
      assert gone == {} && s.dir - gone == s.dir by { CalmCrash(s, gone, l0, l1); }
      InvCrash(s, l0, l1, c);
  }

  lemma CalmCrash(s: System, gone: set<Name>, l0: seq<Name>, l1: seq<Name>)
    requires Calm(s, Crash(gone, l0, l1))
    ensures gone == {} && s.dir - gone == s.dir
  {
  }

  lemma InvInitial(s: System, c: Config)
    requires Initial(s, {0})
    ensures Inv(s, c)
  {
    hide LevelOf, NamesSorted;
    WalIsSkipped();
    DiscoveredPair(s.dir, [], []);
    assert LogOf(s.dir) == [];
    assert Base0(s) + Pending(s) == [];
    forall name, i: nat ensures !FiledUnder(s.dir, name, i) { }
    NoNames();
    EmptyTables(s.dir);
  }

  lemma NoNames()
    ensures NamesSorted([])
  {
  }

  // ---------- whole runs ----------

  ghost predicate CalmRun(states: seq<System>, events: seq<Event>) {
    |events| <= |states| && forall i | 0 <= i < |events| :: Calm(states[i], events[i])
  }

  /** The invariant holds in every state of every run of one client with calm compactions. */
  lemma {:induction false} RunKeepsInv(states: seq<System>, events: seq<Event>, c: Config, n: nat)
    requires IsRun(states, events, c) && Initial(states[0], {0}) && CalmRun(states, events)
    requires n < |states|
    ensures Inv(states[n], c)
  {
    hide Inv, Enabled, Do, Calm, Initial;
    if n == 0 {
      InvInitial(states[0], c);
    } else {
      RunKeepsInv(states, events, c, n - 1);
      InvStep(states[n - 1], events[n - 1], c);
    }
  }

  /** The entries appended by a list of events, in order. */
  function Appended(events: seq<Event>): seq<WalEntry> {
    if events == [] then [] else
    var rest := Appended(events[..|events| - 1]);
    match events[|events| - 1]
    case Append(_, entry) => rest + [entry]
    case _ => rest
  }

  lemma LoggedStep(s: System, e: Event, c: Config)
    requires Enabled(s, e, c)
    ensures Do(s, e, c).logged == if e.Append? then Applied(s.logged, e.entry) else s.logged
  {
    hide CanMerge, CanRename, CanAppend, CanInsert, CanSwap, CanChooseName, CanRegister, CanFail, MayBeGone, PcOf;
    hide MustFlush, WithTable, WithOutput, FileFits, IsDiscovered, Applied, NonEmpty, Inputs, L1Part, LevelName;
  }

  /** The history map is the plain map that the appended operations build: it reads, for every key, as the last
      of them on that key says. */
  lemma {:induction false} LoggedIsAppended(states: seq<System>, events: seq<Event>, c: Config, n: nat,
                                            threads: set<Tid>)
    requires IsRun(states, events, c) && Initial(states[0], threads) && n < |states|
    ensures states[n].logged == MemOf(Appended(events[..n]))
    ensures forall key :: Live(Found(states[n].logged, key)) == LastWrite(Appended(events[..n]), key)
  {
    hide Enabled, Applied, Do, LastWrite;
    forall key ensures Live(Found(MemOf(Appended(events[..n])), key)) == LastWrite(Appended(events[..n]), key) {
      MemOfReads(Appended(events[..n]), key);
    }
    if n > 0 {
      LoggedIsAppended(states, events, c, n - 1, threads);
      var e := events[n - 1];
      assert events[..n][..n - 1] == events[..n - 1] && events[..n][n - 1] == e;
      LoggedStep(states[n - 1], e, c);
      if e.Append? {
        AppliedAfter(Appended(events[..n - 1]), e.entry);
      }
    }
  }

  lemma DurableReads(s: System, c: Config, key: Bytes)
    requires DurableOf(s, c)
    ensures ReadFrom(LogMem(s.dir), TablesAt(s.dir, Base0(s) + Pending(s)), TablesAt(s.dir, Files1(s)), key) ==
            Live(Found(s.logged, key))
  {
    hide AreSsTables, AllNamedIn, Consistent, TombstoneFree, View, Clean, IsDiscovered, LogMem, TablesAt;
  }

  /** At rest, `get` agrees with the plain map of everything appended. */
  lemma RestReads(s: System, c: Config, key: Bytes)
    requires Inv(s, c) && PcOf(s, 0) == Idle && s.compactor == Resting && NoStray(s)
    ensures Get(s, key) == Live(Found(s.logged, key))
  {
    hide DurableInv, LogMem, View, TablesAt, NoStray;
    DurableReads(s, c, key);
    NothingDrained(s, c);
    assert Base0(s) + Pending(s) == s.l0 && Files1(s) == s.l1;
    ReadTwoLevels(AsStore(s), key);
  }

  /** Sequential refinement: between operations of one client, in any run with flushes, calm
      compactions, failed ones and restarts, `get` returns what the last appended operation on the key says,
      unless a compaction has failed since the last restart. */
  lemma SequentialRefinement(states: seq<System>, events: seq<Event>, c: Config, n: nat, key: Bytes)
    requires IsRun(states, events, c) && Initial(states[0], {0}) && CalmRun(states, events)
    requires n < |states| && PcOf(states[n], 0) == Idle && states[n].compactor == Resting && NoStray(states[n])
    ensures Get(states[n], key) == LastWrite(Appended(events[..n]), key)
  {
    hide Inv, IsRun, Initial, Get, CalmRun, NoStray;
    RunKeepsInv(states, events, c, n);
    LoggedIsAppended(states, events, c, n, {0});
    RestReads(states[n], c, key);
  }

  /** In particular a put is read back, whatever its value, unless it spells the tombstone, until the key is written
      again; and a deleted key stays absent. */
  lemma LastOperationIsRead(states: seq<System>, events: seq<Event>, c: Config, n: nat, key: Bytes, i: nat)
    requires IsRun(states, events, c) && Initial(states[0], {0}) && CalmRun(states, events)
    requires n < |states| && PcOf(states[n], 0) == Idle && states[n].compactor == Resting && NoStray(states[n])
    requires var es := Appended(events[..n]);
             i < |es| && es[i].key == key && forall j | i < j < |es| :: es[j].key != key
    ensures var entry := Appended(events[..n])[i];
            Get(states[n], key) ==
            if entry.Put? && !SpellsTombstone(entry.value) then Some(entry.value) else None
  {
    assert |states| == |events| + 1;
    hide IsRun, Initial, Get, CalmRun, NoStray, SpellsTombstone, LastWrite;
    SequentialRefinement(states, events, c, n, key);
    LastWriteAt(Appended(events[..n]), key, i);
  }

  /** Crash safety: a crash between any two steps loses nothing. Whatever the client and the
      compaction thread were doing, the reopened store reads, for every key, as the last operation says whose
      append had completed. */
  lemma CrashSafety(states: seq<System>, events: seq<Event>, c: Config, n: nat,
                    l0: seq<Name>, l1: seq<Name>, key: Bytes)
    requires IsRun(states, events, c) && Initial(states[0], {0}) && CalmRun(states, events)
    requires n < |states| && IsDiscovered(states[n].dir, [l0, l1])
    ensures Get(AfterCrash(states[n], l0, l1), key) == LastWrite(Appended(events[..n]), key)
  {
    hide IsRun, Initial, Get, CalmRun, DurableInv, Replayed, MemOf, IsDiscovered, ClientInv, CompactorInv;
    RunKeepsInv(states, events, c, n);
    LoggedIsAppended(states, events, c, n, {0});
    InvCrash(states[n], l0, l1, c);
    NoStrayAfterCrash(states[n], l0, l1);
    RestReads(AfterCrash(states[n], l0, l1), c, key);
  }

  lemma NoStrayAfterCrash(s: System, l0: seq<Name>, l1: seq<Name>)
    requires IsDiscovered(s.dir, [l0, l1])
    ensures NoStray(AfterCrash(s, l0, l1))
  {
    hide IsDiscovered, LevelOf, Replayed, MemOf, LogOf;
    forall name | FiledUnder(s.dir, name, 0) ensures name in l0 {
      ListedNames(s.dir, l0, l1, name);
    }
  }

  /** The log with a cut-off entry at its end, as a crash in the middle of an append leaves it. */
  function WithTorn(dir: Directory, torn: WalEntry, cut: nat): Directory
    requires cut <= |Encoding(torn)|
  {
    dir[WAL_NAME := LogOf(dir) + Encoding(torn)[..cut]]
  }

  lemma TornLogReads(s: System, torn: WalEntry, cut: nat, l0: seq<Name>, l1: seq<Name>, key: Bytes)
    requires Clean(LogOf(s.dir)) && torn.Fits() && cut < |Encoding(torn)|
    requires IsDiscovered(WithTorn(s.dir, torn, cut), [l0, l1])
    ensures IsDiscovered(s.dir, [l0, l1])
    ensures Get(AfterCrash(s.(dir := WithTorn(s.dir, torn, cut)), l0, l1), key) == Get(AfterCrash(s, l0, l1), key)
  {
    hide Encoding, EncodeAll, Replayed, LevelOf, IsDiscovered, View, MemOf, TableOf;
    var dir := WithTorn(s.dir, torn, cut);
    ReplaySplitsTheLog(LogOf(s.dir));
    TornTailIsDropped(Replayed(LogOf(s.dir)), torn, cut);
    WalIsSkipped();
    SameFiles(dir, s.dir, l0, l1);
    ListedNames(dir, l0, l1, WAL_NAME);
    assert TablesAt(dir, l0) == TablesAt(s.dir, l0) && TablesAt(dir, l1) == TablesAt(s.dir, l1);
    ReadTwoLevels(AsStore(AfterCrash(s, l0, l1)), key);
    ReadTwoLevels(AsStore(AfterCrash(s.(dir := dir), l0, l1)), key);
  }

  /** A crash inside an append loses exactly the entry being appended, which was not acknowledged. */
  lemma CrashInsideAppend(states: seq<System>, events: seq<Event>, c: Config, n: nat, torn: WalEntry, cut: nat,
                          l0: seq<Name>, l1: seq<Name>, key: Bytes)
    requires IsRun(states, events, c) && Initial(states[0], {0}) && CalmRun(states, events)
    requires n < |states| && torn.Fits() && cut < |Encoding(torn)|
    requires IsDiscovered(WithTorn(states[n].dir, torn, cut), [l0, l1])
    ensures Get(AfterCrash(states[n].(dir := WithTorn(states[n].dir, torn, cut)), l0, l1), key) ==
            LastWrite(Appended(events[..n]), key)
  {
    hide IsRun, Initial, Get, CalmRun, DurableInv, IsDiscovered, ClientInv, CompactorInv, Clean, Encoding, WithTorn;
    hide MemOf;
    RunKeepsInv(states, events, c, n);
    DurableClean(states[n], c);
    TornLogReads(states[n], torn, cut, l0, l1, key);
    CrashSafety(states, events, c, n, l0, l1, key);
  }

  /** Restart agreement: at rest, the directory scan rebuilds exactly the level lists in memory if and only if
      every level-0 file is tracked. */
  lemma RestartAgreement(states: seq<System>, events: seq<Event>, c: Config, n: nat, levels: LevelList)
    requires IsRun(states, events, c) && Initial(states[0], {0}) && CalmRun(states, events)
    requires n < |states| && PcOf(states[n], 0) == Idle && states[n].compactor == Resting
    ensures NoStray(states[n]) ==>
              (IsDiscovered(states[n].dir, levels) <==> levels == [states[n].l0, states[n].l1])
    ensures !NoStray(states[n]) ==> !IsDiscovered(states[n].dir, [states[n].l0, states[n].l1])
  {
    hide IsRun, Initial, CalmRun, DurableInv, IsDiscovered, ClientInv, CompactorInv, NoStray;
    var s := states[n];
    RunKeepsInv(states, events, c, n);
    DurableClean(s, c);
    if NoStray(s) {
      NothingDrained(s, c);
      assert Base0(s) + Pending(s) == s.l0 && Files1(s) == s.l1;
      if IsDiscovered(s.dir, levels) {
        DiscoveryIsUnique(s.dir, levels, [s.l0, s.l1]);
      }
    }
    if IsDiscovered(s.dir, [s.l0, s.l1]) {
      DiscoveredIsTracked(s);
    }
  }

  lemma DiscoveredIsTracked(s: System)
    requires IsDiscovered(s.dir, [s.l0, s.l1])
    ensures NoStray(s)
  {
    hide IsDiscovered, LevelOf;
    forall name | FiledUnder(s.dir, name, 0) ensures name in s.l0 {
      ListedNames(s.dir, s.l0, s.l1, name);
    }
  }
}
