/** Level 1 over whole runs of any number of clients: disjoint ranges, no tombstones. */
module LevelOne {
  import opened Wrappers
  import opened Bytes
  import opened Names
  import opened Storage
  import opened Tables
  import opened SsTableFormat
  import opened WalFormat
  import opened MemTable
  import opened Compaction
  import opened LevelTables
  import opened Levels
  import opened Wal
  import opened Stores
  import opened Machine
  import opened Durable
  import opened Recovery
  import opened Conservation
  import opened Survival

  // ---------- any run has a key nobody writes ----------

  ghost predicate NeverWritten(events: seq<Event>, key: Bytes) {
    forall i | 0 <= i < |events| && events[i].Append? :: events[i].entry.key != key
  }

  lemma {:induction false} LongKey(events: seq<Event>) returns (key: Bytes)
    ensures forall i | 0 <= i < |events| && events[i].Append? :: |events[i].entry.key| < |key|
  {
    if events == [] {
      key := [];
    } else {
      key := LongKey(events[..|events| - 1]);
      var e := events[|events| - 1];
      if e.Append? && |e.entry.key| >= |key| {
        key := e.entry.key + [0];
      }
    }
  }

  /** What is proved about a write-once key holds of one that is never written: the facts about files and
      names hold in every state of every run. */
  lemma {:induction false} UnwrittenIsSafe(states: seq<System>, events: seq<Event>, c: Config, threads: set<Tid>,
                                           w: Write, n: nat)
    requires IsRun(states, events, c) && Initial(states[0], threads) && n <= |events|
    requires NeverWritten(events, w.key) && w.value != TOMBSTONE
    ensures WriteInv(states[n], w) && LogInv(states[n], w) && AllGuarded(states, events, w, n)
    ensures w.key !in states[n].logged
  {
    hide WriteInv, LogInv, Safe, Do, Enabled, SomeoneLogged, OnDisk;
    assert OnlyWritten(events, w);
    if n > 0 {
      UnwrittenIsSafe(states, events, c, threads, w, n - 1);
      NobodyLogged(states[n - 1], w);
      assert Guarded(states[n - 1], events[n - 1], w);
      LoggedStep(states[n - 1], events[n - 1], c);
    }
    RunIsSafe(states, events, c, threads, w, n);
  }

  lemma NobodyLogged(s: System, w: Write)
    requires LogInv(s, w) && w.key !in s.logged
    ensures !SomeoneLogged(s, w.key)
  {
    hide OnDisk, Clean, OnlyValue, LogMem, DirOk, NamesUnused, OneHolder, SomeoneLogged;
  }

  // ---------- the invariant ----------

  /** Pairwise disjoint ranges, no tombstones. */
  ghost predicate Fine(dir: Directory, names: seq<Name>) {
    Disjoint(TablesAt(dir, names)) && TombstoneFree(TablesAt(dir, names))
  }

  /** The level-1 files the compaction thread knows. */
  function Known1(s: System): seq<Name> {
    match s.compactor
    case Resting => s.l1
    case Merged(_, _, output) => s.l1 + [output]
    case Deleted(kept, output) => kept + [output]
  }

  /** A level-1 file that a failed compaction left behind. */
  predicate IsStray(s: System, name: Name) {
    FiledUnder(s.dir, name, 1) && name !in Known1(s)
  }

  ghost predicate NoStrays(s: System) {
    forall n :: !IsStray(s, n)
  }

  ghost predicate HasNoTombstone(dir: Directory, name: Name) {
    forall key :: Lookup(TableAt(dir, name), key) != Some(TOMBSTONE)
  }

  lemma SameTombstones(a: Directory, b: Directory, name: Name)
    requires HasNoTombstone(a, name) && name in a && name in b && a[name] == b[name]
    ensures HasNoTombstone(b, name)
  {
    hide TableOf, Lookup;
    forall key ensures Lookup(TableAt(b, name), key) != Some(TOMBSTONE) {
      assert TableAt(b, name) == TableAt(a, name);
    }
  }

  ghost predicate NoTombstones(dir: Directory) {
    forall n | FiledUnder(dir, n, 1) :: HasNoTombstone(dir, n)
  }

  ghost predicate LevelOneInv(s: System) {
    && NoTombstones(s.dir)
    && match s.compactor
       case Resting => Fine(s.dir, s.l1)
       case Merged(inputs, kept, output) =>
         Fine(s.dir, s.l1) && Fine(s.dir, kept + [output]) && forall n | n in s.l1 :: n in inputs || n in kept
       case Deleted(kept, output) => Fine(s.dir, kept + [output])
  }

  /** All names the compaction thread and the level-1 list speak of. */
  lemma Level1Names(s: System, w: Write)
    requires WriteInv(s, w)
    ensures forall n | n in Known1(s) :: LevelOf(n) == Some(1)
    ensures !s.compactor.Deleted? ==> forall n | n in s.l1 :: LevelOf(n) == Some(1)
    ensures s.compactor.Merged? ==> forall n | n in s.compactor.kept + [s.compactor.output] :: LevelOf(n) == Some(1)
  {
    hide LevelOf, Issued, GoodFiles, KnownIn, ThreadInv, NamesApart, Present, OnlyValue;
    forall n | Issued(n, 1, s.clock) ensures LevelOf(n) == Some(1) {
      IssuedLevel(n, 1, s.clock);
    }
    assert forall n | n in s.l1 :: Issued(n, 1, s.clock);
  }

  lemma SameFine(a: Directory, b: Directory, names: seq<Name>)
    requires forall n | n in names :: TableAt(b, n) == TableAt(a, n)
    ensures Fine(a, names) ==> Fine(b, names)
  {
    hide TableAt, Disjoint, TombstoneFree;
    assert TablesAt(b, names) == TablesAt(a, names);
  }

  /** A step that leaves the level-1 files and lists alone. */
  lemma ElsewhereKeeps(s: System, after: System, w: Write)
    requires WriteInv(s, w) && LevelOneInv(s) && after.l1 == s.l1 && after.compactor == s.compactor
    requires forall n | LevelOf(n) == Some(1) ::
               (n in after.dir <==> n in s.dir) && (n in s.dir ==> after.dir[n] == s.dir[n])
    ensures LevelOneInv(after) && (NoStrays(s) ==> NoStrays(after))
  {
    hide WriteInv, Fine, LevelOf, TableOf, Lookup;
    Level1Names(s, w);
    SameFine(s.dir, after.dir, Known1(s));
    if NoStrays(s) {
      forall n ensures !IsStray(after, n) {
        assert !IsStray(s, n);
      }
    }
    forall n | FiledUnder(after.dir, n, 1) ensures HasNoTombstone(after.dir, n) {
      assert FiledUnder(s.dir, n, 1);
      SameTombstones(s.dir, after.dir, n);
    }
    if !s.compactor.Deleted? {
      SameFine(s.dir, after.dir, s.l1);
    }
    if s.compactor.Merged? {
      SameFine(s.dir, after.dir, s.compactor.kept + [s.compactor.output]);
    }
  }

  // ---------- the steps of a compaction ----------

  lemma MergeKeepsLevelOne(s: System, c: Config, w: Write)
    requires WriteInv(s, w) && LevelOneInv(s) && CanMerge(s, c) && w.value != TOMBSTONE
    ensures LevelOneInv(AfterMerge(s, c)) && (NoStrays(s) ==> NoStrays(AfterMerge(s, c)))
  {
    hide GoodFiles, KnownIn, Fine, LevelOf, TableOf, LevelName, NonEmpty, Compacted, TmpName, FileBytes, FileFits;
    hide Decimal;
    hide Inputs, L1Part, TablesAt, TotalRecords, WriteInv, Divided, IsSsTable, Lookup;
    var after, inputs, output := AfterMerge(s, c), Inputs(s), LevelName(1, s.clock);
    var kept := L1Part([s.l0, s.l1], s.dir, false);
    InputsAndKept(s);
    TmpAndWalAreSkipped(output);
    LevelOfLevelName(1, s.clock);
    Level1Names(s, w);
    assert output !in s.l1 && TableAt(after.dir, output) == Compacted(TablesAt(s.dir, inputs)) by {
      MergedOutput(s, c, w);
    }
    SameFine(s.dir, after.dir, s.l1);
    assert Fine(after.dir, kept + [output]) by {
      NewLevelOneIsFine(s, after.dir, output, w);
    }
    LastIsTombstoneFree(after.dir, kept, output);
    assert Known1(after) == s.l1 + [output];
    assert forall n | n in s.l1 :: n in inputs || n in kept by { DividedCovers(s, inputs, kept); }
    OneNewLevelOneFile(s, after, output);
  }

  /** Only the merged file is new. */
  lemma OneNewLevelOneFile(s: System, after: System, output: Name)
    requires s.compactor == Resting && after.compactor.Merged? && Known1(after) == s.l1 + [output]
    requires forall n | n in after.dir && n != output :: n in s.dir && after.dir[n] == s.dir[n]
    requires NoTombstones(s.dir) && HasNoTombstone(after.dir, output)
    ensures NoTombstones(after.dir) && (NoStrays(s) ==> NoStrays(after))
  {
    hide LevelOf, TableOf, Lookup;
    forall n | FiledUnder(after.dir, n, 1) ensures HasNoTombstone(after.dir, n) {
      if n != output {
        assert FiledUnder(s.dir, n, 1);
        SameTombstones(s.dir, after.dir, n);
      }
    }
    if NoStrays(s) {
      forall n ensures !IsStray(after, n) {
        assert !IsStray(s, n);
      }
    }
  }

  lemma LastIsTombstoneFree(dir: Directory, kept: seq<Name>, output: Name)
    requires Fine(dir, kept + [output])
    ensures HasNoTombstone(dir, output)
  {
    hide TableAt, Lookup, Disjoint;
    var tables := TablesAt(dir, kept + [output]);
    assert tables[|kept|] == TableAt(dir, output);
  }

  lemma DividedCovers(s: System, inputs: seq<Name>, kept: seq<Name>)
    requires Divided(s, inputs, kept)
    ensures forall n | n in s.l1 :: n in inputs || n in kept
    ensures forall n | n in kept :: n in s.l1
  {
  }

  lemma MergedOutput(s: System, c: Config, w: Write)
    requires WriteInv(s, w) && CanMerge(s, c) && w.value != TOMBSTONE
    ensures LevelName(1, s.clock) !in s.l1
    ensures TableAt(AfterMerge(s, c).dir, LevelName(1, s.clock)) == Compacted(TablesAt(s.dir, Inputs(s)))
  {
    hide KnownIn, GoodFiles, TableOf, TmpName, LevelOf, FileBytes, FileFits, Lookup, Sorted, LevelName, NonEmpty;
    hide Compacted;
    hide Inputs, L1Part, TablesAt, TotalRecords, WriteInv, Decimal;
    var inputs := Inputs(s);
    var m, shape := Compacted(TablesAt(s.dir, inputs)), c.sizing(TotalRecords(TablesAt(s.dir, inputs)));
    RestingFilesAreGood(s, w);
    InputsAndKept(s);
    assert forall n | n in inputs :: n in s.l0 + s.l1;
    GoodMember(s.dir, s.l0 + s.l1, inputs, w);
    MergedIsGood(s.dir, inputs, w);
    OutputWritten(s, inputs, m, shape, w);
  }

  /** The tables of the new level 1 are those of the specification. */
  lemma NewLevelOneIsFine(s: System, after: Directory, output: Name, w: Write)
    requires WriteInv(s, w) && s.compactor == Resting && Fine(s.dir, s.l1) && s.l0 != []
    requires NonEmpty(s.dir, s.l0) && NonEmpty(s.dir, s.l1)
    requires forall n | n in s.l1 :: TableAt(after, n) == TableAt(s.dir, n)
    requires TableAt(after, output) == Compacted(TablesAt(s.dir, Inputs(s)))
    ensures Fine(after, L1Part([s.l0, s.l1], s.dir, false) + [output])
  {
    hide KnownIn, GoodFiles, TableAt, Compacted, NonEmpty, LevelTables.Merged, Disjoint, TombstoneFree, WriteInv;
    hide SelectNames;
    hide HullOf, Select, Consistent, Divided, AllSorted, IsSsTable;
    var t0, t1, kept := TablesAt(s.dir, s.l0), TablesAt(s.dir, s.l1), L1Part([s.l0, s.l1], s.dir, false);
    RestingFilesAreGood(s, w);
    GoodConcat(s.dir, s.l0, s.l1, w);
    GoodTables(s.dir, s.l0, w);
    GoodTables(s.dir, s.l1, w);
    DisjointIsConsistent(t0, t1);
    MergeableTables(s.dir, s.l0, s.l1);
    CompactionKeepsL1(t0, t0, t1);
    InputsAndKept(s);
    DividedCovers(s, Inputs(s), kept);
    assert TablesAt(after, kept) == TablesAt(s.dir, kept);
    TablesAtConcat(after, kept, [output]);
    TablesAtOne(after, output);
  }

  lemma DeleteKeepsLevelOne(s: System, w: Write)
    requires WriteInv(s, w) && LevelOneInv(s) && s.compactor.Merged?
    ensures LevelOneInv(AfterDelete(s)) && (NoStrays(s) ==> NoStrays(AfterDelete(s)))
  {
    hide WriteInv, Fine, LevelOf, TableOf, Lookup;
    var inputs, kept, output, after := s.compactor.inputs, s.compactor.kept, s.compactor.output, AfterDelete(s);
    var rest := kept + [output];
    assert forall n | n in rest :: n !in inputs by { RestIsNoInput(s, w); }
    forall n | n in rest ensures TableAt(after.dir, n) == TableAt(s.dir, n) {
      InSetOf(inputs, n);
    }
    SameFine(s.dir, after.dir, rest);
    FewerLevelOneFiles(s.dir, after.dir);
    if NoStrays(s) {
      forall n ensures !IsStray(after, n) {
        InSetOf(inputs, n);
        assert !IsStray(s, n);
      }
    }
  }

  lemma FewerLevelOneFiles(dir: Directory, after: Directory)
    requires NoTombstones(dir) && forall n | n in after :: n in dir && after[n] == dir[n]
    ensures NoTombstones(after)
  {
    hide LevelOf, TableOf, Lookup;
    forall n | FiledUnder(after, n, 1) ensures HasNoTombstone(after, n) {
      assert FiledUnder(dir, n, 1);
      SameTombstones(dir, after, n);
    }
  }

  lemma RestIsNoInput(s: System, w: Write)
    requires WriteInv(s, w) && s.compactor.Merged?
    ensures forall n | n in s.compactor.kept + [s.compactor.output] :: n !in s.compactor.inputs
  {
    hide Issued, GoodFiles, KnownIn, ThreadInv, NamesApart, Present, OnlyValue;
  }

  lemma PublishKeepsLevelOne(s: System)
    requires LevelOneInv(s) && s.compactor.Deleted?
    ensures LevelOneInv(AfterPublish(s)) && (NoStrays(s) ==> NoStrays(AfterPublish(s)))
  {
    hide Fine, LevelOf, NoTombstones;
    if NoStrays(s) {
      forall n ensures !IsStray(AfterPublish(s), n) {
        assert !IsStray(s, n);
      }
    }
  }

  /** A failed compaction may leave all of level 1 behind. */
  lemma FailKeepsLevelOne(s: System)
    requires LevelOneInv(s) && CanFail(s)
    ensures LevelOneInv(AfterFail(s))
  {
    hide TableAt, NonEmpty, NoTombstones;
  }

  // ---------- crashes ----------

  /** Two tables whose ranges overlap. */
  predicate Meets(dir: Directory, n: Name, m: Name) {
    TableAt(dir, n) != [] && TableAt(dir, m) != [] && Overlap(RangeOf(TableAt(dir, n)), RangeOf(TableAt(dir, m)))
  }

  /** The level-1 files a restart would find are disjoint: no merged file meets an input it was merged from
      and that is not deleted yet, and no file left behind by a failed compaction meets another. */
  ghost predicate ClearCrash(s: System, gone: set<Name>) {
    var left := s.dir - gone;
    && (s.compactor.Merged? ==>
          forall n | n in s.l1 && n !in s.compactor.kept && n in left :: !Meets(left, n, s.compactor.output))
    && (forall n, m | IsStray(s, n) && FiledUnder(left, m, 1) && n != m :: !Meets(left, n, m))
  }

  ghost predicate Apart(dir: Directory, names: seq<Name>) {
    forall n, m | n in names && m in names && n != m :: !Meets(dir, n, m)
  }

  lemma DisjointIsApart(dir: Directory, names: seq<Name>)
    requires Disjoint(TablesAt(dir, names))
    ensures Apart(dir, names)
  {
    hide TableAt, Overlap;
    var ts := TablesAt(dir, names);
    forall n, m | n in names && m in names && n != m ensures !Meets(dir, n, m) {
      var i :| 0 <= i < |names| && names[i] == n;
      var j :| 0 <= j < |names| && names[j] == m;
      assert ts[i] == TableAt(dir, n) && ts[j] == TableAt(dir, m);
      if ts[i] != [] && ts[j] != [] {
        OverlapSymmetric(RangeOf(ts[i]), RangeOf(ts[j]));
      }
    }
  }

  lemma ApartIsDisjoint(dir: Directory, names: seq<Name>)
    requires Apart(dir, names) && forall i, j | 0 <= i < j < |names| :: names[i] != names[j]
    ensures Disjoint(TablesAt(dir, names))
  {
    hide TableAt, Overlap;
    var ts := TablesAt(dir, names);
    forall i, j | 0 <= i < j < |ts| && ts[i] != [] && ts[j] != [] ensures !Overlap(RangeOf(ts[i]), RangeOf(ts[j])) {
      assert ts[i] == TableAt(dir, names[i]) && ts[j] == TableAt(dir, names[j]);
      assert !Meets(dir, names[i], names[j]);
    }
  }

  lemma DistinctNames(dir: Directory, l0: seq<Name>, l1: seq<Name>)
    requires IsDiscovered(dir, [l0, l1])
    ensures forall i, j | 0 <= i < j < |l1| :: l1[i] != l1[j]
  {
    hide LevelOf, NameLess;
    DiscoveredPair(dir, l0, l1);
    forall i, j | 0 <= i < j < |l1| ensures l1[i] != l1[j] {
      assert NameLess(l1[i], l1[j]);
      NameLessIrreflexive(l1[i]);
    }
  }

  /** The level-1 files the compaction thread knows, apart from a merged file and its inputs. */
  lemma KnownAreApart(s: System, gone: set<Name>, n: Name, m: Name)
    requires LevelOneInv(s) && MayBeGone(s, gone) && ClearCrash(s, gone) && n != m
    requires n in Known1(s) && m in Known1(s) && n in s.dir - gone && m in s.dir - gone
    ensures !Meets(s.dir - gone, n, m)
  {
    hide TableOf, LevelOf, Overlap, NoTombstones, Fine, SetOf;
    var left := s.dir - gone;
    assert TableAt(left, n) == TableAt(s.dir, n) && TableAt(left, m) == TableAt(s.dir, m);
    match s.compactor {
      case Resting => FineIsApart(s.dir, s.l1);
      case Deleted(kept, output) => FineIsApart(s.dir, kept + [output]);
      case Merged(inputs, kept, output) =>
        FineIsApart(s.dir, s.l1);
        MeetsSymmetric(left, n, m);
        if m == output {
          MergedIsApart(s, gone, n);
        } else if n == output {
          MergedIsApart(s, gone, m);
        }
    }
  }

  lemma MergedIsApart(s: System, gone: set<Name>, n: Name)
    requires LevelOneInv(s) && s.compactor.Merged? && ClearCrash(s, gone)
    requires n in s.l1 && n != s.compactor.output && n in s.dir - gone && s.compactor.output in s.dir - gone
    ensures !Meets(s.dir - gone, n, s.compactor.output)
  {
    hide TableOf, LevelOf, Overlap, NoTombstones, Fine;
    var rest := s.compactor.kept + [s.compactor.output];
    FineIsApart(s.dir, rest);
    assert rest[|s.compactor.kept|] == s.compactor.output && s.compactor.output in rest;
    assert n in s.compactor.kept ==> n in rest;
  }

  lemma FineIsApart(dir: Directory, names: seq<Name>)
    requires Fine(dir, names)
    ensures Apart(dir, names)
  {
    hide TableAt, Overlap, TombstoneFree;
    DisjointIsApart(dir, names);
  }

  lemma MeetsSymmetric(dir: Directory, n: Name, m: Name)
    ensures Meets(dir, n, m) <==> Meets(dir, m, n)
  {
    hide TableAt, Overlap;
    if TableAt(dir, n) != [] && TableAt(dir, m) != [] {
      OverlapSymmetric(RangeOf(TableAt(dir, n)), RangeOf(TableAt(dir, m)));
    }
  }

  /** The exact condition: the level 1 that a restart finds is disjoint if and only if the crash is clear. */
  lemma RestartIsDisjointIff(s: System, gone: set<Name>, l0: seq<Name>, l1: seq<Name>, w: Write)
    requires WriteInv(s, w) && LevelOneInv(s) && MayBeGone(s, gone) && IsDiscovered(s.dir - gone, [l0, l1])
    ensures Disjoint(TablesAt(s.dir - gone, l1)) <==> ClearCrash(s, gone)
  {
    hide TableAt, LevelOf, WriteInv, LevelOneInv, IsDiscovered, Disjoint, TablesAt, Meets, MayBeGone;
    var left := s.dir - gone;
    forall n ensures n in l1 <==> FiledUnder(left, n, 1) {
      ListedNames(left, l0, l1, n);
    }
    if ClearCrash(s, gone) {
      forall n, m | n in l1 && m in l1 && n != m ensures !Meets(left, n, m) {
        MeetsSymmetric(left, n, m);
        if n in Known1(s) && m in Known1(s) {
          KnownAreApart(s, gone, n, m);
        } else if n !in Known1(s) {
          assert IsStray(s, n);
        } else {
          assert IsStray(s, m);
        }
      }
      DistinctNames(left, l0, l1);
      ApartIsDisjoint(left, l1);
    }
    if Disjoint(TablesAt(left, l1)) {
      DisjointIsApart(left, l1);
      ApartIsClear(s, gone, l1, w);
    }
  }

  lemma ApartIsClear(s: System, gone: set<Name>, l1: seq<Name>, w: Write)
    requires WriteInv(s, w) && LevelOneInv(s) && MayBeGone(s, gone) && Apart(s.dir - gone, l1)
    requires forall n :: n in l1 <==> FiledUnder(s.dir - gone, n, 1)
    ensures ClearCrash(s, gone)
  {
    hide TableOf, LevelOf, Overlap, NoTombstones, Fine, WriteInv, SetOf;
    var left := s.dir - gone;
    Level1Names(s, w);
    if s.compactor.Merged? {
      var output := s.compactor.output;
      RestIsNoInput(s, w);
      forall n | n in s.l1 && n !in s.compactor.kept && n in left ensures !Meets(left, n, output) {
        assert n in s.compactor.inputs && n != output;
        assert output in left ==> output in l1;
      }
    }
    forall n, m | IsStray(s, n) && FiledUnder(left, m, 1) && n != m ensures !Meets(left, n, m) {
      assert n in left ==> n in l1;
      assert m in l1;
    }
  }

  /** After a clear crash level 1 is as fine as before, and nothing is left behind. */
  lemma CrashKeepsLevelOne(s: System, gone: set<Name>, l0: seq<Name>, l1: seq<Name>, w: Write)
    requires WriteInv(s, w) && LevelOneInv(s) && MayBeGone(s, gone) && IsDiscovered(s.dir - gone, [l0, l1])
    requires ClearCrash(s, gone)
    ensures var after := AfterCrash(s.(dir := s.dir - gone), l0, l1); LevelOneInv(after) && NoStrays(after)
  {
    hide LevelOf, TableOf, MemOf, Replayed, LogOf, IsDiscovered, Disjoint, Lookup, WriteInv, ClearCrash, MayBeGone;
    var left := s.dir - gone;
    RestartIsDisjointIff(s, gone, l0, l1, w);
    FewerLevelOneFiles(s.dir, left);
    forall n ensures n in l1 <==> FiledUnder(left, n, 1) {
      ListedNames(left, l0, l1, n);
    }
    ListTombstoneFree(left, l1);
  }

  lemma ListTombstoneFree(dir: Directory, names: seq<Name>)
    requires NoTombstones(dir) && forall n | n in names :: FiledUnder(dir, n, 1)
    ensures TombstoneFree(TablesAt(dir, names))
  {
    hide TableAt, Lookup, LevelOf;
    forall i, key | 0 <= i < |names| ensures Lookup(TablesAt(dir, names)[i], key) != Some(TOMBSTONE) {
      assert names[i] in names && TablesAt(dir, names)[i] == TableAt(dir, names[i]) && HasNoTombstone(dir, names[i]);
    }
  }

  // ---------- whole runs ----------

  lemma LevelOneStep(s: System, e: Event, c: Config, w: Write)
    requires WriteInv(s, w) && LogInv(s, w) && LevelOneInv(s) && Enabled(s, e, c) && w.value != TOMBSTONE
    requires e.Crash? ==> ClearCrash(s, e.gone)
    ensures LevelOneInv(Do(s, e, c)) && (!e.Fail? && NoStrays(s) ==> NoStrays(Do(s, e, c)))
  {
    hide WriteInv, LogInv, LevelOneInv, CanAppend, CanInsert, CanChooseName, CanSwap, CanRename, CanRegister, CanMerge;
    hide IsDiscovered, LevelOf, MustFlush, Applied, Encoding, LevelName, TmpName, FileBytes, Entries, LogOf, NoStrays;
    hide ClearCrash, MayBeGone, CanFail;
    WalIsSkipped();
    match e
    case Merge => MergeKeepsLevelOne(s, c, w);
    case DeleteInputs => DeleteKeepsLevelOne(s, w);
    case Publish => PublishKeepsLevelOne(s);
    case Fail => FailKeepsLevelOne(s);
    case Crash(gone, l0, l1) => CrashKeepsLevelOne(s, gone, l0, l1, w);
    case Rename(t) =>
      RenameIsElsewhere(s, t, c, w);
      ElsewhereKeeps(s, Do(s, e, c), w);
    case Scribble(target, bytes) =>
      TmpAndWalAreSkipped(target);
      ElsewhereKeeps(s, Do(s, e, c), w);
    case _ => ElsewhereKeeps(s, Do(s, e, c), w);
  }

  lemma RenameIsElsewhere(s: System, t: Tid, c: Config, w: Write)
    requires WriteInv(s, w) && CanRename(s, t, c)
    ensures var after := AfterRename(s, t, c).dir;
            forall n | LevelOf(n) == Some(1) :: (n in after <==> n in s.dir) && (n in s.dir ==> after[n] == s.dir[n])
  {
    hide LevelOf, Issued, GoodFiles, KnownIn, OnlyValue, IsSsTable, TableAt, Entries, FileFits, FileBytes, TmpName;
    var name := s.clients[t].name;
    assert ThreadInv(s, t, w) && Holds(s.clients[t], name);
    IssuedLevel(name, 0, s.clock);
    TmpAndWalAreSkipped(name);
  }

  lemma EmptyStoreIsFine(s: System, threads: set<Tid>)
    requires Initial(s, threads)
    ensures LevelOneInv(s) && NoStrays(s)
  {
    hide LevelOf;
    WalIsSkipped();
  }

  /** Every crash is clear. */
  ghost predicate ClearCrashes(states: seq<System>, events: seq<Event>) {
    |events| <= |states| && forall i | 0 <= i < |events| && events[i].Crash? :: ClearCrash(states[i], events[i].gone)
  }

  lemma {:induction false} RunKeepsLevelOne(states: seq<System>, events: seq<Event>, c: Config, threads: set<Tid>,
                                            w: Write, n: nat)
    requires IsRun(states, events, c) && Initial(states[0], threads) && n <= |events|
    requires ClearCrashes(states, events) && NeverWritten(events, w.key) && w.value != TOMBSTONE
    ensures LevelOneInv(states[n])
    ensures (forall i | 0 <= i < n :: !events[i].Fail?) ==> NoStrays(states[n])
  {
    hide WriteInv, LogInv, LevelOneInv, Enabled, Do, Initial, NeverWritten, AllGuarded, ClearCrash, NoStrays;
    if n == 0 {
      EmptyStoreIsFine(states[0], threads);
    } else {
      RunKeepsLevelOne(states, events, c, threads, w, n - 1);
      UnwrittenIsSafe(states, events, c, threads, w, n - 1);
      LevelOneStep(states[n - 1], events[n - 1], c, w);
    }
  }

  /** In every state a reader can see, of every run whose crashes are clear: level 1 is sorted, disjoint and free
      of tombstones, and at most one of its files knows a key. Without failed compactions no file is left
      behind, so that a crash is clear unless it falls among the deletions of a compaction. */
  lemma LevelOneStaysDisjoint(states: seq<System>, events: seq<Event>, c: Config, threads: set<Tid>, n: nat)
    requires IsRun(states, events, c) && Initial(states[0], threads) && n < |states|
    requires ClearCrashes(states, events) && states[n].compactor == Resting
    ensures var tables := TablesAt(states[n].dir, states[n].l1);
            && AllSorted(tables) && Disjoint(tables) && TombstoneFree(tables)
            && forall i, j, key | 0 <= i < |tables| && 0 <= j < |tables| && Lookup(tables[i], key).Some? &&
                                  Lookup(tables[j], key).Some? :: i == j
    ensures (forall i | 0 <= i < n :: !events[i].Fail?) ==> NoStrays(states[n])
  {
    hide WriteInv, LogInv, Do, Enabled, Initial, Disjoint, TombstoneFree, AllSorted, Lookup, TablesAt, ClearCrashes;
    hide GoodFiles, AgreeOn, KnownIn, NoTombstones, NoStrays;
    var key := LongKey(events);
    var w := Write(key, []);
    var s, tables := states[n], TablesAt(states[n].dir, states[n].l1);
    RunKeepsLevelOne(states, events, c, threads, w, n);
    UnwrittenIsSafe(states, events, c, threads, w, n);
    RestingFilesAreGood(s, w);
    GoodConcat(s.dir, s.l0, s.l1, w);
    GoodTables(s.dir, s.l1, w);
    forall i: nat, j: nat, k | i < |tables| && j < |tables| && Lookup(tables[i], k).Some? && Lookup(tables[j], k).Some?
      ensures i == j
    {
      AtMostOneKnows(tables, i, j, k);
    }
  }

  /** And the exact condition for the next restart, in any state of such a run. */
  lemma NextRestartIsDisjointIff(states: seq<System>, events: seq<Event>, c: Config, threads: set<Tid>, n: nat,
                                 gone: set<Name>, l0: seq<Name>, l1: seq<Name>)
    requires IsRun(states, events, c) && Initial(states[0], threads) && n < |states| && ClearCrashes(states, events)
    requires MayBeGone(states[n], gone) && IsDiscovered(states[n].dir - gone, [l0, l1])
    ensures Disjoint(TablesAt(states[n].dir - gone, l1)) <==> ClearCrash(states[n], gone)
  {
    hide WriteInv, LogInv, Do, Enabled, Initial, Disjoint, TablesAt, ClearCrashes, LevelOneInv, ClearCrash, MayBeGone;
    hide IsDiscovered;
    var key := LongKey(events);
    var w := Write(key, []);
    RunKeepsLevelOne(states, events, c, threads, w, n);
    UnwrittenIsSafe(states, events, c, threads, w, n);
    RestartIsDisjointIff(states[n], gone, l0, l1, w);
  }
}
