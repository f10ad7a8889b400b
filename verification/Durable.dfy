/** What the directory alone guarantees, and how every step that touches it keeps that. */
module Durable {
  import opened Wrappers
  import opened Bytes
  import opened Names
  import opened Storage
  import opened Tables
  import opened Bloom
  import opened SsTableFormat
  import opened WalFormat
  import opened MemTable
  import opened Compaction
  import opened LevelTables
  import opened Levels
  import opened Wal
  import opened Stores

  // ---------- what a restart would read ----------

  /** The memtable a restart rebuilds. */
  function LogMem(dir: Directory): KeyValues {
    MemOf(Replayed(LogOf(dir)))
  }

  /** A read over a replayed log and two levels of tables. */
  function ReadFrom(log: KeyValues, t0: seq<Table>, t1: seq<Table>, key: Bytes): Option<Bytes> {
    if key in log then Live(Some(log[key])) else View(t0, t1, key)
  }

  /** A name of the level whose timestamp is below the clock and has the common width. */
  predicate NamedIn(name: Name, level: nat, clock: nat, width: nat) {
    exists ts: nat :: ts < clock && |Decimal(ts)| == width && name == LevelName(level, ts)
  }

  predicate AllNamedIn(names: seq<Name>, level: nat, clock: nat, width: nat) {
    forall i | 0 <= i < |names| :: NamedIn(names[i], level, clock, width)
  }

  /** The directory holds a clean log and exactly the SSTables `b0 + p` and `d1`, whose names sort in
      this order; together they read as the plain map `logged`. */
  ghost predicate DurableInv(dir: Directory, logged: KeyValues, b0: seq<Name>, p: seq<Name>, d1: seq<Name>,
                             clock: nat, width: nat)
  {
    && WAL_NAME in dir && Clean(LogOf(dir))
    && IsDiscovered(dir, [b0 + p, d1])
    && AreSsTables(dir, b0 + p) && AreSsTables(dir, d1)
    && AllNamedIn(b0 + p, 0, clock, width) && AllNamedIn(d1, 1, clock, width)
    && Consistent(TablesAt(dir, b0), TablesAt(dir, d1)) && TombstoneFree(TablesAt(dir, d1))
    && forall key :: ReadFrom(LogMem(dir), TablesAt(dir, b0 + p), TablesAt(dir, d1), key) == Live(Found(logged, key))
  }

  // ---------- tables ----------

  /** The newest level-0 table decides the keys it knows. */
  lemma ViewPush(t0: seq<Table>, t: Table, t1: seq<Table>, key: Bytes)
    ensures View(t0 + [t], t1, key) == if Lookup(t, key).Some? then Live(Lookup(t, key)) else View(t0, t1, key)
  {
    hide Lookup;
    ReversedConcat(t0, [t]);
    assert Reversed([t]) == [t] by { assert [t][1..] == []; }
    assert Reversed(t0 + [t]) + t1 == [t] + (Reversed(t0) + t1);
    assert ([t] + (Reversed(t0) + t1))[1..] == Reversed(t0) + t1;
  }

  lemma ConsistentWeakens(t0: seq<Table>, p: seq<Table>, t1: seq<Table>)
    requires Consistent(t0, t1)
    ensures Consistent(t0 + p, t1)
  {
    hide Lookup;
    forall key ensures Knows(t0, key) ==> Knows(t0 + p, key) {
      if Knows(t0, key) {
        var i :| 0 <= i < |t0| && Lookup(t0[i], key).Some?;
        assert (t0 + p)[i] == t0[i];
      }
    }
  }

  /** A merged table next to the old ones: reads and consistency are kept, with or without a newer
      level-0 table on top. */
  lemma MergeKeepsReads(l0: seq<Table>, p: seq<Table>, l1: seq<Table>, key: Bytes)
    requires l0 != [] && AllNonEmpty(l0) && AllNonEmpty(l1) && AllSorted(l0) && AllSorted(l1)
    requires Consistent(l0, l1) && TombstoneFree(l1) && |p| <= 1
    ensures View(l0 + p, l1 + [Merged(l0, l0, l1)], key) == View(l0 + p, l1, key)
  {
    hide Sorted, HullOf, Merged, Lookup, Knows, Consistent, View, TombstoneFree;
    var found := l1 + [Merged(l0, l0, l1)];
    MembersOfPush(l1, Merged(l0, l0, l1));
    CrashAfterRename(l0, l0, l1, found, key);
    if p == [] {
      assert l0 + p == l0;
    } else {
      assert p == [p[0]];
      ViewPush(l0, p[0], l1, key);
      ViewPush(l0, p[0], found, key);
    }
  }

  lemma MergeKeepsConsistency(l0: seq<Table>, l1: seq<Table>)
    requires l0 != [] && AllNonEmpty(l0) && AllNonEmpty(l1) && AllSorted(l0) && AllSorted(l1)
    requires Consistent(l0, l1) && TombstoneFree(l1)
    ensures Consistent(l0, l1 + [Merged(l0, l0, l1)]) && TombstoneFree(l1 + [Merged(l0, l0, l1)])
  {
    hide Sorted, HullOf, Merged, Lookup, Knows;
    var m := Merged(l0, l0, l1);
    var found := l1 + [m];
    MembersOfPush(l1, m);
    forall key, i, j | 0 <= i < |found| && 0 <= j < |found| && !Knows(l0, key) &&
                       Lookup(found[i], key).Some? && Lookup(found[j], key).Some?
      ensures Lookup(found[i], key) == Lookup(found[j], key)
    {
      CrashAfterRename(l0, l0, l1, found, key);
      var value :| AgreeOn(found, key, value);
    }
    forall i, key | 0 <= i < |found| ensures Lookup(found[i], key) != Some(TOMBSTONE) {
      MergedLookup(l0, l0, l1, key);
    }
  }

  /** Deleting the inputs of a compaction whose level 0 agrees at its ends keeps every read. */
  lemma DeleteKeepsReads(l0: seq<Table>, p: seq<Table>, l1: seq<Table>, key: Bytes)
    requires l0 != [] && AllNonEmpty(l0) && AllNonEmpty(l1) && AllSorted(l0) && AllSorted(l1)
    requires Consistent(l0, l1) && TombstoneFree(l1) && EndsAgree(l0) && |p| <= 1
    ensures View(p, NewL1(l0, l0, l1), key) == View(l0 + p, l1, key)
  {
    hide Sorted, HullOf, NewL1, Lookup, Knows, Consistent, View, TombstoneFree;
    OldestFirstAt(l0, l1, key);
    if p == [] {
      assert l0 + p == l0;
    } else {
      assert p == [p[0]] && [] + [p[0]] == [p[0]];
      ViewPush([], p[0], NewL1(l0, l0, l1), key);
      ViewPush(l0, p[0], l1, key);
    }
  }

  lemma DeleteKeepsConsistency(l0: seq<Table>, l1: seq<Table>)
    requires l0 != [] && AllNonEmpty(l0) && AllNonEmpty(l1) && AllSorted(l0) && AllSorted(l1)
    requires Consistent(l0, l1) && TombstoneFree(l1)
    ensures Consistent([], NewL1(l0, l0, l1)) && TombstoneFree(NewL1(l0, l0, l1))
  {
    hide Sorted, HullOf, Merged, Lookup, Knows, Select, Consistent, TombstoneFree;
    NewL1TombstoneFree(l0, l0, l1);
    var un, m := Select(l1, HullOf(l0), false), Merged(l0, l0, l1);
    forall key ensures Agreed(un + [m], key) {
      NewL1Agrees(l0, l1, key);
    }
    AgreedIsConsistent(un + [m]);
  }

  lemma AgreedIsConsistent(ts: seq<Table>)
    requires forall key :: Agreed(ts, key)
    ensures Consistent([], ts)
  {
    hide Lookup;
    forall key, i, j | 0 <= i < |ts| && 0 <= j < |ts| && Lookup(ts[i], key).Some? && Lookup(ts[j], key).Some?
      ensures Lookup(ts[i], key) == Lookup(ts[j], key)
    {
      assert Agreed(ts, key);
      var value :| AgreeOn(ts, key, value);
    }
  }

  lemma NewL1Agrees(l0: seq<Table>, l1: seq<Table>, key: Bytes)
    requires l0 != [] && AllNonEmpty(l0) && AllNonEmpty(l1) && AllSorted(l0) && AllSorted(l1)
    requires Consistent(l0, l1) && TombstoneFree(l1)
    ensures Agreed(NewL1(l0, l0, l1), key)
  {
    hide Sorted, HullOf, Merged, Lookup, Knows, Select;
    var un, m := Select(l1, HullOf(l0), false), Merged(l0, l0, l1);
    if Knows(l0, key) {
      UntouchedIgnoreL0(l0, l1, key);
      KnowsNothing(un, key);
      var value := if Lookup(m, key).Some? then Lookup(m, key).value else [];
      assert AgreeOn(un + [m], key, value);
    } else {
      var value := L1Value(l0, l1, key);
      MembersOfPush(l1, m);
      FoundAgrees(l0, l0, l1, l1 + [m], key, value);
      SelectMembers(l1, HullOf(l0), false);
      AgreeSubset(un + [m], l1 + [m], key, value);
    }
  }

  lemma KnowsNothing(ts: seq<Table>, key: Bytes)
    requires !Knows(ts, key)
    ensures forall i | 0 <= i < |ts| :: Lookup(ts[i], key).None?
  {
  }

  // ---------- directories ----------

  /** The second directory has the same bytes under every one of the names. */
  predicate Agrees(a: Directory, b: Directory, names: seq<Name>) {
    forall i | 0 <= i < |names| :: names[i] in a ==> names[i] in b && b[names[i]] == a[names[i]]
  }

  lemma AgreeingTables(a: Directory, b: Directory, names: seq<Name>)
    requires Agrees(a, b, names) && AreSsTables(a, names)
    ensures TablesAt(a, names) == TablesAt(b, names) && AreSsTables(b, names)
  {
    hide TableOf, IsFileOf;
    forall i | 0 <= i < |names| ensures TableAt(a, names[i]) == TableAt(b, names[i]) && IsSsTable(b, names[i]) {
      assert IsSsTable(a, names[i]);
    }
  }

  /** Two levels, spelled out. */
  lemma DiscoveredPair(dir: Directory, a: seq<Name>, b: seq<Name>)
    ensures IsDiscovered(dir, [a, b]) <==>
            IsLevelOf(dir, a, 0) && IsLevelOf(dir, b, 1) && forall name, i: nat | FiledUnder(dir, name, i) :: i < 2
  {
    hide IsLevelOf, FiledUnder;
    var levels := [a, b];
    assert levels[0] == a && levels[1] == b;
  }

  /** Names a scan skips do not matter. */
  lemma SkippedNameAdded(dir: Directory, x: Name, bytes: Bytes, a: seq<Name>, b: seq<Name>)
    requires LevelOf(x).None? && IsDiscovered(dir, [a, b])
    ensures IsDiscovered(dir[x := bytes], [a, b]) && IsDiscovered(dir - {x}, [a, b])
    ensures x !in a && x !in b
  {
    hide LevelOf;
    SameFiles(dir, dir[x := bytes], a, b);
    SameFiles(dir, dir - {x}, a, b);
    ListedNames(dir, a, b, x);
  }

  lemma SameFiles(dir: Directory, after: Directory, a: seq<Name>, b: seq<Name>)
    requires IsDiscovered(dir, [a, b])
    requires forall name | LevelOf(name).Some? :: name in after <==> name in dir
    ensures IsDiscovered(after, [a, b])
  {
    hide LevelOf, NamesSorted;
    DiscoveredPair(dir, a, b);
    DiscoveredPair(after, a, b);
    forall name, i: nat ensures FiledUnder(after, name, i) <==> FiledUnder(dir, name, i) { }
  }

  /** Every listed name is in the directory, under the level of its list. */
  lemma ListedNames(dir: Directory, a: seq<Name>, b: seq<Name>, name: Name)
    requires IsDiscovered(dir, [a, b])
    ensures name in a <==> FiledUnder(dir, name, 0)
    ensures name in b <==> FiledUnder(dir, name, 1)
  {
    hide FiledUnder, NamesSorted;
    DiscoveredPair(dir, a, b);
  }

  lemma {:induction false} NewestName(names: seq<Name>, level: nat, clock: nat, width: nat)
    requires AllNamedIn(names, level, clock, width) && |Decimal(clock)| == width
    ensures forall i | 0 <= i < |names| :: NameLess(names[i], LevelName(level, clock))
  {
    hide NameLess, LevelName;
    forall i | 0 <= i < |names| ensures NameLess(names[i], LevelName(level, clock)) {
      assert NamedIn(names[i], level, clock, width);
      var ts: nat :| ts < clock && |Decimal(ts)| == width && names[i] == LevelName(level, ts);
      LevelNameOrder(level, ts, clock);
    }
  }

  lemma SortedPush(names: seq<Name>, name: Name)
    requires NamesSorted(names) && forall i | 0 <= i < |names| :: NameLess(names[i], name)
    ensures NamesSorted(names + [name]) && name !in names
  {
    hide NameLess;
    NameLessIrreflexive(name);
  }

  /** A new file whose name sorts last in level 0, or in level 1. */
  lemma NameAdded(dir: Directory, name: Name, bytes: Bytes, level: nat, a: seq<Name>, b: seq<Name>, own: seq<Name>)
    requires IsDiscovered(dir, [a, b]) && level < 2 && LevelOf(name) == Some(level)
    requires own == if level == 0 then a else b
    requires forall i | 0 <= i < |own| :: NameLess(own[i], name)
    ensures name !in a && name !in b && name !in dir
    ensures level == 0 ==> IsDiscovered(dir[name := bytes], [a + [name], b])
    ensures level == 1 ==> IsDiscovered(dir[name := bytes], [a, b + [name]])
  {
    hide LevelOf, NameLess, NamesSorted;
    DiscoveredPair(dir, a, b);
    SortedPush(own, name);
    assert FiledUnder(dir, name, level) <==> name in dir;
    var after := dir[name := bytes];
    forall other, i: nat
      ensures FiledUnder(after, other, i) <==> FiledUnder(dir, other, i) || (other == name && i == level)
    {
    }
    if level == 0 {
      DiscoveredPair(after, a + [name], b);
    } else {
      DiscoveredPair(after, a, b + [name]);
    }
  }

  lemma NamedInLater(names: seq<Name>, level: nat, clock: nat, later: nat, width: nat)
    requires AllNamedIn(names, level, clock, width) && clock <= later
    ensures AllNamedIn(names, level, later, width)
  {
    hide LevelName;
    forall i | 0 <= i < |names| ensures NamedIn(names[i], level, later, width) {
      assert NamedIn(names[i], level, clock, width);
    }
  }

  lemma NamedPush(names: seq<Name>, name: Name, level: nat, clock: nat, width: nat)
    requires AllNamedIn(names, level, clock, width) && NamedIn(name, level, clock, width)
    ensures AllNamedIn(names + [name], level, clock, width)
  {
    hide NamedIn;
  }

  lemma NamedInIsListed(name: Name, level: nat, clock: nat, width: nat)
    requires NamedIn(name, level, clock, width) && level < 2
    ensures LevelOf(name) == Some(level)
  {
    hide LevelOf, LevelName;
    var ts: nat :| ts < clock && |Decimal(ts)| == width && name == LevelName(level, ts);
    LevelOfLevelName(level, ts);
  }

  // ---------- steps on the directory ----------

  lemma AppliedAfter(entries: seq<WalEntry>, entry: WalEntry)
    ensures MemOf(entries + [entry]) == Applied(MemOf(entries), entry)
  {
    assert (entries + [entry])[..|entries|] == entries;
  }

  /** Replaying a log after an append is one more operation. */
  lemma LogAfterAppend(dir: Directory, entry: WalEntry)
    requires Clean(LogOf(dir)) && entry.Fits()
    ensures Clean(LogOf(WithLogged(dir, entry)))
    ensures LogMem(WithLogged(dir, entry)) == Applied(LogMem(dir), entry)
  {
    hide Clean, Replayed, Encoding, Applied;
    AppendToClean(LogOf(dir), entry);
    AppliedAfter(Replayed(LogOf(dir)), entry);
  }

  lemma LogAfterTruncate(dir: Directory)
    ensures Clean(LogOf(WithoutLog(dir))) && LogMem(WithoutLog(dir)) == map[]
  {
  }

  lemma WalIsSkipped()
    ensures LevelOf(WAL_NAME).None?
  {
    TmpAndWalAreSkipped("");
  }

  /** The parts of the invariant that only speak of tables, carried to an agreeing directory. */
  lemma CarryOver(a: Directory, b: Directory, b0: seq<Name>, p: seq<Name>, d1: seq<Name>)
    requires AreSsTables(a, b0 + p) && AreSsTables(a, d1)
    requires Agrees(a, b, b0 + p) && Agrees(a, b, d1)
    ensures AreSsTables(b, b0 + p) && AreSsTables(b, d1)
    ensures TablesAt(b, b0 + p) == TablesAt(a, b0 + p) && TablesAt(b, d1) == TablesAt(a, d1)
    ensures TablesAt(b, b0) == TablesAt(a, b0) && TablesAt(b, p) == TablesAt(a, p)
  {
    hide TableAt, IsSsTable;
    AgreeingTables(a, b, b0 + p);
    AgreeingTables(a, b, d1);
    TablesAtConcat(a, b0, p);
    TablesAtConcat(b, b0, p);
    assert TablesAt(a, b0) == TablesAt(a, b0 + p)[..|b0|] && TablesAt(b, b0) == TablesAt(b, b0 + p)[..|b0|];
    assert TablesAt(a, p) == TablesAt(a, b0 + p)[|b0|..] && TablesAt(b, p) == TablesAt(b, b0 + p)[|b0|..];
  }

  lemma SkippedAgrees(dir: Directory, x: Name, bytes: Bytes, names: seq<Name>)
    requires x !in names
    ensures Agrees(dir, dir[x := bytes], names) && Agrees(dir, dir - {x}, names)
  {
  }

  /** Append: the map read back gains exactly the appended operation. */
  lemma DurableAppend(dir: Directory, logged: KeyValues, b0: seq<Name>, p: seq<Name>, d1: seq<Name>,
                      clock: nat, width: nat, entry: WalEntry)
    requires DurableInv(dir, logged, b0, p, d1, clock, width) && entry.Fits()
    ensures DurableInv(WithLogged(dir, entry), Applied(logged, entry), b0, p, d1, clock, width)
  {
    hide TablesAt, AreSsTables, AllNamedIn, Consistent, TombstoneFree, View, Clean, IsDiscovered, LogMem, Encoding;
    var after := WithLogged(dir, entry);
    WalIsSkipped();
    SkippedNameAdded(dir, WAL_NAME, after[WAL_NAME], b0 + p, d1);
    SkippedAgrees(dir, WAL_NAME, after[WAL_NAME], b0 + p);
    SkippedAgrees(dir, WAL_NAME, after[WAL_NAME], d1);
    CarryOver(dir, after, b0, p, d1);
    LogAfterAppend(dir, entry);
    forall key
      ensures ReadFrom(LogMem(after), TablesAt(after, b0 + p), TablesAt(after, d1), key) ==
              Live(Found(Applied(logged, entry), key))
    {
      assert ReadFrom(LogMem(dir), TablesAt(dir, b0 + p), TablesAt(dir, d1), key) == Live(Found(logged, key));
    }
  }

  /** Unfinished output under a temporary name changes nothing. */
  lemma DurableScribble(dir: Directory, logged: KeyValues, b0: seq<Name>, p: seq<Name>, d1: seq<Name>,
                        clock: nat, width: nat, target: Name, bytes: Bytes)
    requires DurableInv(dir, logged, b0, p, d1, clock, width)
    ensures DurableInv(dir[TmpName(target) := bytes], logged, b0, p, d1, clock, width)
    ensures DurableInv(dir - {TmpName(target)}, logged, b0, p, d1, clock, width)
  {
    hide TablesAt, AreSsTables, AllNamedIn, Consistent, TombstoneFree, View, Clean, IsDiscovered, TmpName, Replayed;
    var x := TmpName(target);
    TmpAndWalAreSkipped(target);
    SkippedNameAdded(dir, x, bytes, b0 + p, d1);
    SkippedAgrees(dir, x, bytes, b0 + p);
    SkippedAgrees(dir, x, bytes, d1);
    CarryOver(dir, dir[x := bytes], b0, p, d1);
    CarryOver(dir, dir - {x}, b0, p, d1);
  }

  lemma NewFileIsSsTable(dir: Directory, name: Name, t: Table, s: FilterShape)
    requires FileFits(t, s) && Sorted(t) && name in dir && dir[name] == FileBytes(t, s)
    ensures IsSsTable(dir, name) && TableAt(dir, name) == t
  {
    hide FileBytes, FileFits, Sorted, TableOf, OpenFile;
    assert IsFileOf(dir[name], t, s);
    FileOfTable(dir[name], t, s);
  }

  /** Rename: the memtable's file appears as the newest level-0 table; the log still covers it. */
  lemma {:induction false} DurableRename(dir: Directory, logged: KeyValues, b0: seq<Name>, d1: seq<Name>, clock: nat,
                                         width: nat,
                      name: Name, table: KeyValues, s: FilterShape)
    requires DurableInv(dir, logged, b0, [], d1, clock, width)
    requires NamedIn(name, 0, clock, width) && forall i | 0 <= i < |b0| :: NameLess(b0[i], name)
    requires table == LogMem(dir) && FileFits(Entries(table), s)
    ensures DurableInv(WithTable(dir, name, Entries(table), s), logged, b0, [name], d1, clock, width)
    ensures TableAt(WithTable(dir, name, Entries(table), s), name) == Entries(table)
    ensures LogMem(WithTable(dir, name, Entries(table), s)) == table
  {
    hide TablesAt, AllNamedIn, Consistent, TombstoneFree, View, Clean, IsDiscovered, TmpName, FileBytes, Entries;
    hide FileFits, Sorted, IsSsTable, NamedIn, LevelName, Replayed, MemOf, LevelOf, NameLess;
    DurableScribble(dir, logged, b0, [], d1, clock, width, name, []);
    var cleared := dir - {TmpName(name)};
    var t := Entries(table);
    var after := cleared[name := FileBytes(t, s)];
    assert b0 + [] == b0;
    NamedInIsListed(name, 0, clock, width);
    WalIsSkipped();
    NameAdded(cleared, name, FileBytes(t, s), 0, b0, d1, b0);
    SkippedAgrees(cleared, name, FileBytes(t, s), b0);
    SkippedAgrees(cleared, name, FileBytes(t, s), d1);
    CarryOver(cleared, after, b0, [], d1);
    EntriesAreTheMap(table);
    NewFileIsSsTable(after, name, t, s);
    NamedPush(b0, name, 0, clock, width);
    TmpAndWalAreSkipped(name);
    assert LogOf(after) == LogOf(dir);
    TablesAtConcat(after, b0, [name]);
    TablesAtOne(after, name);
    forall key
      ensures ReadFrom(LogMem(after), TablesAt(after, b0 + [name]), TablesAt(after, d1), key) ==
              Live(Found(logged, key))
    {
      ViewPush(TablesAt(after, b0), t, TablesAt(after, d1), key);
      assert ReadFrom(LogMem(cleared), TablesAt(cleared, b0 + []), TablesAt(cleared, d1), key) ==
             Live(Found(logged, key));
    }
  }

  lemma TablesAtOne(dir: Directory, name: Name)
    ensures TablesAt(dir, [name]) == [TableAt(dir, name)]
  {
    hide TableAt;
  }

  /** Truncate: the log is empty, and the newest level-0 table now answers for it. */
  lemma DurableTruncate(dir: Directory, logged: KeyValues, b0: seq<Name>, name: Name, d1: seq<Name>,
                        clock: nat, width: nat)
    requires DurableInv(dir, logged, b0, [name], d1, clock, width)
    requires TableAt(dir, name) == Entries(LogMem(dir))
    ensures DurableInv(WithoutLog(dir), logged, b0, [name], d1, clock, width)
    ensures TableAt(WithoutLog(dir), name) == TableAt(dir, name)
  {
    hide TablesAt, AreSsTables, AllNamedIn, Consistent, TombstoneFree, View, Clean, IsDiscovered, LogMem, Entries;
    hide TableOf;
    var after, log := WithoutLog(dir), LogMem(dir);
    WalIsSkipped();
    SkippedNameAdded(dir, WAL_NAME, [], b0 + [name], d1);
    SkippedAgrees(dir, WAL_NAME, [], b0 + [name]);
    SkippedAgrees(dir, WAL_NAME, [], d1);
    CarryOver(dir, after, b0, [name], d1);
    LogAfterTruncate(dir);
    EntriesAreTheMap(log);
    TablesAtConcat(dir, b0, [name]);
    TablesAtOne(dir, name);
    TablesAtOne(after, name);
    forall key
      ensures ReadFrom(LogMem(after), TablesAt(after, b0 + [name]), TablesAt(after, d1), key) ==
              Live(Found(logged, key))
    {
      ViewPush(TablesAt(dir, b0), Entries(log), TablesAt(dir, d1), key);
    }
  }

  /** Register, or a restart: the pending file becomes an ordinary level-0 file. */
  lemma DurableRegister(dir: Directory, logged: KeyValues, b0: seq<Name>, p: seq<Name>, d1: seq<Name>,
                        clock: nat, width: nat)
    requires DurableInv(dir, logged, b0, p, d1, clock, width)
    ensures DurableInv(dir, logged, b0 + p, [], d1, clock, width)
  {
    hide TablesAt, AreSsTables, AllNamedIn, Consistent, TombstoneFree, View, Clean, IsDiscovered, LogMem;
    assert b0 + p + [] == b0 + p;
    TablesAtConcat(dir, b0, p);
    ConsistentWeakens(TablesAt(dir, b0), TablesAt(dir, p), TablesAt(dir, d1));
  }

  /** Time passes. */
  lemma DurableLater(dir: Directory, logged: KeyValues, b0: seq<Name>, p: seq<Name>, d1: seq<Name>,
                     clock: nat, later: nat, width: nat)
    requires DurableInv(dir, logged, b0, p, d1, clock, width) && clock <= later
    ensures DurableInv(dir, logged, b0, p, d1, later, width)
  {
    hide TablesAt, AreSsTables, AllNamedIn, Consistent, TombstoneFree, View, Clean, IsDiscovered, LogMem;
    NamedInLater(b0 + p, 0, clock, later, width);
    NamedInLater(d1, 1, clock, later, width);
  }

  // ---------- compaction on the directory ----------

  /** Level 0 and level 1 are ready to be merged. */
  ghost predicate Mergeable(dir: Directory, l0: seq<Name>, l1: seq<Name>) {
    && l0 != [] && NonEmpty(dir, l0) && NonEmpty(dir, l1)
    && AreSsTables(dir, l0) && AreSsTables(dir, l1)
    && Consistent(TablesAt(dir, l0), TablesAt(dir, l1)) && TombstoneFree(TablesAt(dir, l1))
  }

  function MergeInputs(dir: Directory, l0: seq<Name>, l1: seq<Name>): seq<Name>
    requires l0 != [] && NonEmpty(dir, l0) && NonEmpty(dir, l1)
  {
    l0 + L1Part([l0, l1], dir, true)
  }

  /** The table the merge writes. */
  function MergedTable(dir: Directory, l0: seq<Name>, l1: seq<Name>): Table
    requires l0 != [] && NonEmpty(dir, l0) && NonEmpty(dir, l1)
  {
    Compacted(TablesAt(dir, MergeInputs(dir, l0, l1)))
  }

  lemma MergeableTables(dir: Directory, l0: seq<Name>, l1: seq<Name>)
    requires Mergeable(dir, l0, l1)
    ensures var t0, t1 := TablesAt(dir, l0), TablesAt(dir, l1);
            && t0 != [] && AllNonEmpty(t0) && AllNonEmpty(t1) && AllSorted(t0) && AllSorted(t1)
            && MergedTable(dir, l0, l1) == Merged(t0, t0, t1) && Sorted(MergedTable(dir, l0, l1))
            && TablesAt(dir, L1Part([l0, l1], dir, false)) == Select(t1, HullOf(t0), false)
  {
    hide TableAt, IsSsTable, Compacted, HullOf, SelectNames, Select, Sorted, Consistent, TombstoneFree, IsTable;
    NonEmptyTables(dir, l0);
    NonEmptyTables(dir, l1);
    SsTablesAreTables(dir, l0);
    SsTablesAreTables(dir, l1);
    AreTablesSorted(dir, l0);
    AreTablesSorted(dir, l1);
    var t0, t1 := TablesAt(dir, l0), TablesAt(dir, l1);
    SelectNamesTables(dir, l1, HullOf(t0), true);
    SelectNamesTables(dir, l1, HullOf(t0), false);
    TablesAtConcat(dir, l0, L1Part([l0, l1], dir, true));
    MergedLookup(t0, t0, t1, []);
  }

  /** Merge: the output appears as the newest level-1 table and changes no read. */
  lemma DurableMerge(dir: Directory, logged: KeyValues, l0: seq<Name>, p: seq<Name>, l1: seq<Name>,
                     clock: nat, width: nat, s: FilterShape)
    requires DurableInv(dir, logged, l0, p, l1, clock, width) && |p| <= 1
    requires Mergeable(dir, l0, l1) && |Decimal(clock)| == width
    requires FileFits(MergedTable(dir, l0, l1), s)
    ensures var output := LevelName(1, clock);
            var after := WithTable(dir, output, MergedTable(dir, l0, l1), s);
            && DurableInv(after, logged, l0, p, l1 + [output], clock + 1, width)
            && TableAt(after, output) == MergedTable(dir, l0, l1)
            && Agrees(dir, after, l0 + p) && Agrees(dir, after, l1)
            && LogOf(after) == LogOf(dir)
  {
    hide TablesAt, AllNamedIn, Consistent, TombstoneFree, View, Clean, IsDiscovered, TmpName, FileBytes;
    hide FileFits, Sorted, IsSsTable, LevelName, Replayed, MemOf, LevelOf, NameLess, MergedTable, Merged, NonEmpty;
    hide HullOf;
    var output, m := LevelName(1, clock), MergedTable(dir, l0, l1);
    DurableScribble(dir, logged, l0, p, l1, clock, width, output, []);
    var cleared := dir - {TmpName(output)};
    var after := cleared[output := FileBytes(m, s)];
    LevelOfLevelName(1, clock);
    WalIsSkipped();
    TmpAndWalAreSkipped(output);
    NewestName(l1, 1, clock, width);
    NameAdded(cleared, output, FileBytes(m, s), 1, l0 + p, l1, l1);
    SkippedAgrees(cleared, output, FileBytes(m, s), l0 + p);
    SkippedAgrees(cleared, output, FileBytes(m, s), l1);
    SkippedNameAdded(dir, TmpName(output), [], l0 + p, l1);
    SkippedAgrees(dir, TmpName(output), [], l0 + p);
    SkippedAgrees(dir, TmpName(output), [], l1);
    CarryOver(dir, cleared, l0, p, l1);
    CarryOver(cleared, after, l0, p, l1);
    MergeableTables(dir, l0, l1);
    NewFileIsSsTable(after, output, m, s);
    NamedInLater(l0 + p, 0, clock, clock + 1, width);
    NamedInLater(l1, 1, clock, clock + 1, width);
    NamedPush(l1, output, 1, clock + 1, width);
    assert LogOf(after) == LogOf(dir);
    TablesAtConcat(after, l1, [output]);
    TablesAtOne(after, output);
    TablesAtConcat(dir, l0, p);
    MergeKeepsConsistency(TablesAt(dir, l0), TablesAt(dir, l1));
    forall key
      ensures ReadFrom(LogMem(after), TablesAt(after, l0 + p), TablesAt(after, l1 + [output]), key) ==
              Live(Found(logged, key))
    {
      MergeKeepsReads(TablesAt(dir, l0), TablesAt(dir, p), TablesAt(dir, l1), key);
    }
  }

  /** The two parts of level 1 are its names. */
  lemma {:induction false} PartsOfL1(dir: Directory, names: seq<Name>, hull: Range, name: Name)
    requires NonEmpty(dir, names) && NamesSorted(names)
    ensures NamesSorted(SelectNames(dir, names, hull, true)) && NamesSorted(SelectNames(dir, names, hull, false))
    ensures name in names <==>
            name in SelectNames(dir, names, hull, true) || name in SelectNames(dir, names, hull, false)
    ensures !(name in SelectNames(dir, names, hull, true) && name in SelectNames(dir, names, hull, false))
  {
    hide NameLess, TableAt, Overlap;
    if names != [] {
      PartsOfL1(dir, names[1..], hull, name);
      SelectedAreNames(dir, names[1..], hull, true);
      SelectedAreNames(dir, names[1..], hull, false);
      NotInTail(names);
      assert names == [names[0]] + names[1..];
      FirstIsLeast(names, SelectNames(dir, names[1..], hull, true));
      FirstIsLeast(names, SelectNames(dir, names[1..], hull, false));
    }
  }

  lemma FirstIsLeast(names: seq<Name>, part: seq<Name>)
    requires NamesSorted(names) && names != [] && NamesSorted(part) && forall n | n in part :: n in names[1..]
    ensures NamesSorted([names[0]] + part)
  {
    hide NameLess;
    forall i | 0 <= i < |part| ensures NameLess(names[0], part[i]) {
      assert part[i] in names[1..];
    }
  }

  lemma {:induction false} SelectedAreNames(dir: Directory, names: seq<Name>, hull: Range, meets: bool)
    requires NonEmpty(dir, names)
    ensures forall n | n in SelectNames(dir, names, hull, meets) :: n in names
  {
    hide TableAt, Overlap;
    if names != [] {
      SelectedAreNames(dir, names[1..], hull, meets);
    }
  }

  lemma InSetOf(names: seq<Name>, name: Name)
    ensures name in SetOf(names) <==> name in names
  {
  }

  /** Removing the inputs leaves the pending level-0 file and the rest of level 1. */
  lemma NamesAfterDelete(dir: Directory, l0: seq<Name>, p: seq<Name>, l1: seq<Name>, output: Name)
    requires IsDiscovered(dir, [l0 + p, l1 + [output]])
    requires l0 != [] && NonEmpty(dir, l0) && NonEmpty(dir, l1)
    ensures var inputs, kept := MergeInputs(dir, l0, l1), L1Part([l0, l1], dir, false);
            && IsDiscovered(dir - SetOf(inputs), [p, kept + [output]])
            && (forall n | n in p || n in kept || n == output :: n !in inputs)
            && (forall n | n in kept :: n in l1)
            && WAL_NAME !in inputs
  {
    hide LevelOf, NameLess, NonEmpty, SelectNames, HullOf;
    var t0 := TablesAt(dir, l0);
    NonEmptyTables(dir, l0);
    var ov, kept := L1Part([l0, l1], dir, true), L1Part([l0, l1], dir, false);
    var inputs := l0 + ov;
    var after := dir - SetOf(inputs);
    DiscoveredPair(dir, l0 + p, l1 + [output]);
    SortedParts(l0, p);
    SortedParts(l1, [output]);
    forall n
      ensures n in l1 <==> n in ov || n in kept
      ensures !(n in ov && n in kept)
      ensures NamesSorted(kept)
    {
      PartsOfL1(dir, l1, HullOf(t0), n);
    }
    assert NamesSorted(kept) by { PartsOfL1(dir, l1, HullOf(t0), output); }
    SortedRest(l1, kept, output);
    WalIsSkipped();
    assert !FiledUnder(dir, WAL_NAME, 0) && !FiledUnder(dir, WAL_NAME, 1);
    forall n
      ensures n in l0 ==> n !in p && n !in l1 && n != output
      ensures n in inputs <==> n in l0 || n in ov
      ensures n in l0 || n in p <==> FiledUnder(dir, n, 0)
      ensures n in l1 || n == output <==> FiledUnder(dir, n, 1)
      ensures n in p ==> n !in l1 && n != output
    {
      assert n in l0 + p <==> n in l0 || n in p;
      assert n in l1 + [output] <==> n in l1 || n == output;
    }
    forall n, i: nat ensures FiledUnder(after, n, i) <==> FiledUnder(dir, n, i) && n !in inputs {
      InSetOf(inputs, n);
    }
    DiscoveredPair(after, p, kept + [output]);
  }

  /** Two halves of a sorted list are sorted and share no name. */
  lemma SortedParts(a: seq<Name>, b: seq<Name>)
    requires NamesSorted(a + b)
    ensures NamesSorted(a) && NamesSorted(b)
    ensures forall n | n in a :: n !in b
    ensures forall i | 0 <= i < |a| && |b| == 1 :: NameLess(a[i], b[0])
  {
    hide NameLess;
    var c := a + b;
    forall i, j | 0 <= i < j < |b| ensures NameLess(b[i], b[j]) {
      assert c[|a| + i] == b[i] && c[|a| + j] == b[j];
    }
    forall i, j | 0 <= i < j < |a| ensures NameLess(a[i], a[j]) {
      assert c[i] == a[i] && c[j] == a[j];
    }
    forall i, j | 0 <= i < |a| && 0 <= j < |b| ensures NameLess(a[i], b[j]) && a[i] != b[j] {
      assert c[i] == a[i] && c[|a| + j] == b[j];
      NameLessIrreflexive(a[i]);
    }
  }

  lemma SortedRest(l1: seq<Name>, kept: seq<Name>, output: Name)
    requires NamesSorted(kept) && (forall n | n in kept :: n in l1)
    requires forall i | 0 <= i < |l1| :: NameLess(l1[i], output)
    ensures NamesSorted(kept + [output])
  {
    hide NameLess;
    forall i | 0 <= i < |kept| ensures NameLess(kept[i], output) {
      assert kept[i] in l1;
    }
  }

  /** Deleting the inputs: the merged table and the untouched ones carry on alone. */
  lemma DurableDelete(dir: Directory, logged: KeyValues, l0: seq<Name>, p: seq<Name>, l1: seq<Name>, output: Name,
                      clock: nat, width: nat)
    requires DurableInv(dir, logged, l0, p, l1 + [output], clock, width) && |p| <= 1
    requires Mergeable(dir, l0, l1) && EndsAgree(TablesAt(dir, l0))
    requires TableAt(dir, output) == MergedTable(dir, l0, l1)
    ensures var after := dir - SetOf(MergeInputs(dir, l0, l1));
            && DurableInv(after, logged, [], p, L1Part([l0, l1], dir, false) + [output], clock, width)
            && Agrees(dir, after, p) && LogOf(after) == LogOf(dir)
  {
    hide TablesAt, Consistent, TombstoneFree, View, Clean, IsDiscovered, FirstHit, EndsAgree;
    hide Sorted, IsSsTable, Replayed, MemOf, LevelOf, NameLess, MergedTable, Merged, NonEmpty, HullOf, TableAt, NamedIn;
    hide SelectNames, MergeInputs, L1Part;
    var inputs, kept := MergeInputs(dir, l0, l1), L1Part([l0, l1], dir, false);
    var after := dir - SetOf(inputs);
    NamesAfterDelete(dir, l0, p, l1, output);
    RemovedAgrees(dir, inputs, p);
    RemovedAgrees(dir, inputs, kept + [output]);
    InSetOf(inputs, WAL_NAME);
    var t0, tp, t1 := TablesAt(dir, l0), TablesAt(dir, p), TablesAt(dir, l1);
    MergeableTables(dir, l0, l1);
    TablesAtConcat(dir, l0, p);
    TablesAtConcat(dir, l1, [output]);
    TablesAtConcat(dir, kept, [output]);
    TablesAtOne(dir, output);
    SubNames(dir, l0 + p, p, 0, clock, width);
    SubNames(dir, l1 + [output], kept + [output], 1, clock, width);
    assert [] + p == p;
    CarryOver(dir, after, [], p, kept + [output]);
    DeleteKeepsConsistency(t0, t1);
    assert TablesAt(after, []) == [] by { EmptyTables(after); }
    forall key
      ensures ReadFrom(LogMem(after), TablesAt(after, p), TablesAt(after, kept + [output]), key) ==
              Live(Found(logged, key))
    {
      DeleteKeepsReads(t0, tp, t1, key);
      MergeKeepsReads(t0, tp, t1, key);
    }
  }

  lemma EmptyTables(dir: Directory)
    ensures TablesAt(dir, []) == []
  {
  }

  lemma RemovedAgrees(dir: Directory, inputs: seq<Name>, names: seq<Name>)
    requires forall n | n in names :: n !in inputs
    ensures Agrees(dir, dir - SetOf(inputs), names)
  {
    forall i | 0 <= i < |names| ensures names[i] !in SetOf(inputs) {
      InSetOf(inputs, names[i]);
    }
  }

  lemma SubNames(dir: Directory, names: seq<Name>, part: seq<Name>, level: nat, clock: nat, width: nat)
    requires AreSsTables(dir, names) && AllNamedIn(names, level, clock, width)
    requires forall n | n in part :: n in names
    ensures AreSsTables(dir, part) && AllNamedIn(part, level, clock, width)
  {
    hide IsSsTable, NamedIn;
    forall i | 0 <= i < |part| ensures IsSsTable(dir, part[i]) && NamedIn(part[i], level, clock, width) {
      assert part[i] in names;
    }
  }
}
