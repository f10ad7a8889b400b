/** One store as a value: memtable, directory and level lists, and what each step does to them. */
module Stores {
  import opened Wrappers
  import opened Bytes
  import opened Names
  import opened Storage
  import opened Tables
  import opened Bloom
  import opened SsTableFormat
  import opened SsTableWriter
  import opened WalFormat
  import opened MemTable
  import opened Levels
  import opened LevelTables
  import opened Wal

  datatype Store = Store(mem: KeyValues, dir: Directory, levels: LevelList)

  // ---------- writes ----------

  function Applied(mem: KeyValues, entry: WalEntry): KeyValues {
    match entry
    case Put(key, value) => mem[key := value]
    case Delete(key) => mem[key := TOMBSTONE]
  }

  /** The memtable that `open` rebuilds from the log. */
  function MemOf(entries: seq<WalEntry>): KeyValues {
    if entries == [] then map[] else Applied(MemOf(entries[..|entries| - 1]), entries[|entries| - 1])
  }

  // ---------- what a list of operations promises for a key ----------

  /** The last operation on the key decides: a put promises its value, unless it spells the tombstone, and a
      delete promises that the key is absent, as does no operation at all. */
  function LastWrite(entries: seq<WalEntry>, key: Bytes): Option<Bytes> {
    if entries == [] then None else
    match entries[|entries| - 1]
    case Put(k, value) =>
      if k != key then LastWrite(entries[..|entries| - 1], key)
      else if SpellsTombstone(value) then None
      else Some(value)
    case Delete(k) =>
      if k != key then LastWrite(entries[..|entries| - 1], key) else None
  }

  /** The same by position: the entry after which none is on the key. */
  lemma {:induction false} LastWriteAt(entries: seq<WalEntry>, key: Bytes, i: nat)
    requires i < |entries| && entries[i].key == key
    requires forall j | i < j < |entries| :: entries[j].key != key
    ensures LastWrite(entries, key) ==
            if entries[i].Put? && !SpellsTombstone(entries[i].value) then Some(entries[i].value) else None
    decreases |entries|
  {
    hide SpellsTombstone;
    if i < |entries| - 1 {
      assert entries[|entries| - 1].key != key;
      LastWriteAt(entries[..|entries| - 1], key, i);
    }
  }

  lemma {:induction false} LastWriteNone(entries: seq<WalEntry>, key: Bytes)
    requires forall j | 0 <= j < |entries| :: entries[j].key != key
    ensures LastWrite(entries, key) == None
    decreases |entries|
  {
    hide SpellsTombstone;
    if entries != [] {
      assert entries[|entries| - 1].key != key;
      LastWriteNone(entries[..|entries| - 1], key);
    }
  }

  /** The memtable built by a list of operations reads, for every key, as the last operation on it says. */
  lemma {:induction false} MemOfReads(entries: seq<WalEntry>, key: Bytes)
    ensures Live(Found(MemOf(entries), key)) == LastWrite(entries, key)
    decreases |entries|
  {
    hide SpellsTombstone, Live;
    if entries == [] {
      NothingIsLive();
    } else {
      var n := |entries| - 1;
      MemOfReads(entries[..n], key);
      match entries[n]
      case Put(k, value) => LiveUnlessTombstone(value);
      case Delete(k) => TombstoneIsSpelled();
    }
  }

  lemma NothingIsLive()
    ensures Live(None) == None
  {
  }

  lemma TombstoneIsSpelled()
    ensures SpellsTombstone(TOMBSTONE) && Live(Some(TOMBSTONE)) == None
  {
  }

  function WithLogged(dir: Directory, entry: WalEntry): Directory {
    dir[WAL_NAME := LogOf(dir) + Encoding(entry)]
  }

  /** A finished SSTable, revealed under its final name. */
  function WithTable(dir: Directory, name: Name, t: Table, shape: FilterShape): Directory {
    (dir - {TmpName(name)})[name := FileBytes(t, shape)]
  }

  function WithoutLog(dir: Directory): Directory {
    dir[WAL_NAME := []]
  }

  ghost function MustFlush(mem: KeyValues, threshold: nat): bool {
    TableBytes(Entries(mem)) >= threshold
  }

  /** A whole flush: swap, write, rename, truncate, register. */
  ghost function Flushed(s: Store, now: nat, sizing: Sizing): Store {
    var name := LevelName(0, now);
    Store(map[], WithoutLog(WithTable(s.dir, name, Entries(s.mem), sizing(|s.mem|))), WithL0File(s.levels, name))
  }

  /** A whole `set` or `delete`: log, insert, and flush if the memtable is full. */
  ghost function Written(s: Store, entry: WalEntry, threshold: nat, now: nat, sizing: Sizing): Store {
    var inserted := s.(dir := WithLogged(s.dir, entry), mem := Applied(s.mem, entry));
    if MustFlush(inserted.mem, threshold) then Flushed(inserted, now, sizing) else inserted
  }

  // ---------- reads ----------

  function Flatten(levels: LevelList): seq<Name> {
    if levels == [] then [] else levels[0] + Flatten(levels[1..])
  }

  /** The files `get` consults, in order. */
  function ReadOrder(levels: LevelList): seq<Name> {
    if levels == [] then [] else Reversed(levels[0]) + Flatten(levels[1..])
  }

  /** Deeper levels are consulted after shallower ones, each in list order. */
  lemma {:induction false} FlattenPush(levels: LevelList, names: seq<Name>)
    ensures Flatten(levels + [names]) == Flatten(levels) + names
  {
    if levels == [] {
      assert ([] + [names])[1..] == [];
    } else {
      assert (levels + [names])[1..] == levels[1..] + [names];
      FlattenPush(levels[1..], names);
    }
  }

  lemma ReadOrderOfNewLevel(levels: LevelList, names: seq<Name>)
    ensures ReadOrder([[]]) == []
    ensures levels != [] ==> ReadOrder(levels + [names]) == ReadOrder(levels) + names
  {
    var one: LevelList := [[]];
    assert one[1..] == [];
    if levels != [] {
      assert (levels + [names])[1..] == levels[1..] + [names];
      FlattenPush(levels[1..], names);
    }
  }

  /** What `get` returns. */
  function Read(s: Store, key: Bytes): Option<Bytes> {
    if key in s.mem then Live(Some(s.mem[key]))
    else Live(FirstHit(TablesAt(s.dir, ReadOrder(s.levels)), key))
  }

  /** The name stands for a file some writer finished. */
  ghost predicate IsSsTable(dir: Directory, name: Name) {
    name in dir && exists t, s :: IsFileOf(dir[name], t, s)
  }

  predicate IsFileOf(file: Bytes, t: Table, s: FilterShape) {
    file == FileBytes(t, s) && FileFits(t, s) && Sorted(t)
  }

  ghost predicate AreSsTables(dir: Directory, names: seq<Name>) {
    forall i | 0 <= i < |names| :: IsSsTable(dir, names[i])
  }

  lemma FileOfTable(file: Bytes, t: Table, s: FilterShape)
    requires IsFileOf(file, t, s)
    ensures OpenFile(file).Opened? && TableOf(file) == t
  {
    hide FileBytes, OpenFile, TableOf, FileFits, Sorted;
    OpenOfFileBytes(t, s);
    TableOfFileBytes(t, s);
  }

  lemma SsTableIsTable(dir: Directory, name: Name)
    requires IsSsTable(dir, name)
    ensures IsTable(dir, name)
  {
    hide OpenFile, TableOf, FileBytes;
    var t, s :| IsFileOf(dir[name], t, s);
    FileOfTable(dir[name], t, s);
  }

  lemma SsTablesAreTables(dir: Directory, names: seq<Name>)
    requires AreSsTables(dir, names)
    ensures AreTables(dir, names)
  {
    hide IsSsTable, IsTable;
    forall i | 0 <= i < |names| ensures IsTable(dir, names[i]) {
      SsTableIsTable(dir, names[i]);
    }
  }

  lemma {:induction false} TablesAtReversed(dir: Directory, names: seq<Name>)
    ensures TablesAt(dir, Reversed(names)) == Reversed(TablesAt(dir, names))
  {
    hide TableAt;
    if names != [] {
      TablesAtReversed(dir, names[1..]);
      TablesAtConcat(dir, Reversed(names[1..]), [names[0]]);
      assert TablesAt(dir, names)[1..] == TablesAt(dir, names[1..]);
      assert TablesAt(dir, [names[0]]) == [TablesAt(dir, names)[0]];
    }
  }

  /** With two levels, a read is the memtable, then level 0 newest first, then level 1. */
  lemma ReadTwoLevels(s: Store, key: Bytes)
    requires |s.levels| == 2
    ensures Read(s, key) ==
            if key in s.mem then Live(Some(s.mem[key]))
            else View(TablesAt(s.dir, s.levels[0]), TablesAt(s.dir, s.levels[1]), key)
  {
    hide TableAt, FirstHit;
    var l0, l1 := s.levels[0], s.levels[1];
    assert s.levels[1..] == [l1] && [l1][1..] == [];
    assert Flatten([l1]) == l1 + Flatten([]) == l1;
    TablesAtConcat(s.dir, Reversed(l0), l1);
    TablesAtReversed(s.dir, l0);
  }

  // ---------- a write is read back ----------

  lemma ReversedPush(names: seq<Name>, name: Name)
    ensures Reversed(names + [name]) == [name] + Reversed(names)
  {
    ReversedConcat(names, [name]);
    assert [name][1..] == [];
  }

  lemma ReadOrderOfNewFile(levels: LevelList, name: Name)
    ensures ReadOrder(WithL0File(levels, name)) == [name] + ReadOrder(levels)
    ensures WithL0File(levels, name) != levels
  {
    hide Reversed;
    ReversedPush(if levels == [] then [] else levels[0], name);
    var after := WithL0File(levels, name);
    if levels == [] {
      assert after[1..] == [] && [] + [name] == [name];
      NothingReversed();
    } else {
      assert after[1..] == levels[1..] && |after[0]| == |levels[0]| + 1;
    }
  }

  lemma NothingReversed()
    ensures Reversed<Name>([]) == [] && Flatten([]) == []
  {
  }

  lemma FilesElsewhere(dir: Directory, after: Directory, names: seq<Name>)
    requires forall n | n in names :: n in after <==> n in dir
    requires forall n | n in names && n in dir :: after[n] == dir[n]
    ensures TablesAt(after, names) == TablesAt(dir, names)
  {
    hide TableOf;
    forall i | 0 <= i < |names| ensures TableAt(after, names[i]) == TableAt(dir, names[i]) {
      assert names[i] in names;
    }
  }

  /** A flush changes no read. */
  lemma FlushKeepsReads(s: Store, now: nat, sizing: Sizing, key: Bytes)
    requires FileFits(Entries(s.mem), sizing(|s.mem|))
    requires forall n | n in ReadOrder(s.levels) ::
               n != LevelName(0, now) && n != TmpName(LevelName(0, now)) && n != WAL_NAME
    requires LevelName(0, now) != WAL_NAME
    ensures Read(Flushed(s, now, sizing), key) == Read(s, key)
  {
    hide TableOf, FileBytes, FileFits, Entries, ReadOrder, LevelName, TmpName, WithL0File, Sorted;
    var name, shape, order := LevelName(0, now), sizing(|s.mem|), ReadOrder(s.levels);
    var after := Flushed(s, now, sizing);
    ReadOrderOfNewFile(s.levels, name);
    FilesElsewhere(s.dir, after.dir, order);
    TablesAtConcat(after.dir, [name], order);
    EntriesAreTheMap(s.mem);
    FileOfTable(after.dir[name], Entries(s.mem), shape);
    assert TablesAt(after.dir, [name]) == [Entries(s.mem)];
    FirstHitConcat([Entries(s.mem)], TablesAt(s.dir, order), key);
    FirstHitOne(Entries(s.mem), key);
  }

  /** After a put or a delete, flush included, its key reads as it promises and every other key as before. */
  lemma WriteIsReadBack(s: Store, entry: WalEntry, threshold: nat, now: nat, sizing: Sizing, key: Bytes)
    requires var mem := Applied(s.mem, entry); FileFits(Entries(mem), sizing(|mem|))
    requires forall n | n in ReadOrder(s.levels) ::
               n != LevelName(0, now) && n != TmpName(LevelName(0, now)) && n != WAL_NAME
    requires LevelName(0, now) != WAL_NAME
    ensures Read(Written(s, entry, threshold, now, sizing), key) ==
            if key == entry.key then LastWrite([entry], key) else Read(s, key)
  {
    hide TableOf, FileBytes, FileFits, Entries, ReadOrder, LevelName, TmpName, Flushed, MustFlush, Encoding, LogOf;
    hide SpellsTombstone, Live;
    var inserted := s.(dir := WithLogged(s.dir, entry), mem := Applied(s.mem, entry));
    FilesElsewhere(s.dir, inserted.dir, ReadOrder(s.levels));
    if MustFlush(inserted.mem, threshold) {
      FlushKeepsReads(inserted, now, sizing, key);
    }
    match entry
    case Put(k, value) => LiveUnlessTombstone(value);
    case Delete(k) => TombstoneIsSpelled();
  }

  /** After a write the memtable holds fewer bytes than the threshold, and a flush is never of fewer. */
  lemma FlushesAtThreshold(s: Store, entry: WalEntry, threshold: nat, now: nat, sizing: Sizing)
    requires threshold > 0
    ensures var after, size := Written(s, entry, threshold, now, sizing), TableBytes(Entries(Applied(s.mem, entry)));
            && TableBytes(Entries(after.mem)) < threshold
            && (after.levels != s.levels <==> size >= threshold)
  {
    hide Entries, LevelName, WithTable, WithoutLog, WithLogged, WithL0File, ReadOrder;
    NoEntries();
    ReadOrderOfNewFile(s.levels, LevelName(0, now));
  }

  /** A compaction fails exactly when a level-0 or level-1 file does not open or has no records. It then
      leaves every file in place, but the level lists have been drained: reads lose level 0, and if level 1
      is to blame both levels. A restart finds the files again, for better or worse: behind newer level-1
      records if a compaction has succeeded in between. */
  lemma FailedCompactionForgets(s: Store, now: nat, sizing: Sizing, key: Bytes)
    ensures var levels := Padded(s.levels);
            var o := CompactionOutcome(s.levels, s.dir, now, sizing);
            && (o.result.Err? <==> levels[0] != [] && !(NonEmpty(s.dir, levels[0]) && NonEmpty(s.dir, levels[1])))
            && (o.result.Err? ==> o.dir == s.dir)
            && (o.result.Err? ==>
                  var left := (if NonEmpty(s.dir, levels[0]) then [] else levels[1]) + Flatten(levels[2..]);
                  Read(s.(levels := o.levels), key) ==
                  if key in s.mem then Live(Some(s.mem[key])) else Live(FirstHit(TablesAt(s.dir, left), key)))
  {
    hide TablesAt, FirstHit, WithOutput, LevelName, NonEmpty, L1Part, L1Error, L0Error, Flatten;
    var levels, o := Padded(s.levels), CompactionOutcome(s.levels, s.dir, now, sizing);
    if o.result.Err? {
      var first := if NonEmpty(s.dir, levels[0]) then [] else levels[1];
      assert o.levels[0] == [] && o.levels[1..] == [first] + levels[2..];
      FlattenCons(first, levels[2..]);
      assert ReadOrder(o.levels) == first + Flatten(levels[2..]);
    }
  }

  lemma FlattenCons(names: seq<Name>, levels: LevelList)
    ensures Flatten([names] + levels) == names + Flatten(levels)
  {
    assert ([names] + levels)[1..] == levels;
  }

  lemma NoFiles(dir: Directory)
    ensures TablesAt(dir, []) == []
  {
  }

  // ---------- the directory scan ----------

  ghost predicate NamesSorted(names: seq<Name>) {
    forall i, j | 0 <= i < j < |names| :: NameLess(names[i], names[j])
  }

  /** The directory scan files the name under this level. */
  predicate FiledUnder(dir: Directory, name: Name, level: nat) {
    name in dir && LevelOf(name) == Some(level)
  }

  /** Exactly the names of one level, sorted. */
  ghost predicate IsLevelOf(dir: Directory, names: seq<Name>, level: nat) {
    NamesSorted(names) && forall name :: name in names <==> FiledUnder(dir, name, level)
  }

  /** `levels` is what `discover_levels` builds: per level, the names of the directory that carry the
      level, sorted; at least two levels, and no more than needed. */
  ghost predicate IsDiscovered(dir: Directory, levels: LevelList) {
    && |levels| >= 2
    && (forall i | 0 <= i < |levels| :: IsLevelOf(dir, levels[i], i))
    && (forall name, i: nat | FiledUnder(dir, name, i) :: i < |levels|)
    && (|levels| > 2 ==> levels[|levels| - 1] != [])
  }

  lemma {:induction false} SortedNamesUnique(a: seq<Name>, b: seq<Name>)
    requires NamesSorted(a) && NamesSorted(b) && forall name :: name in a <==> name in b
    ensures a == b
  {
    hide NameLess;
    assert b == [] || b[0] in b;
    if a != [] {
      assert a[0] in a && a[0] in b && b != [];
      assert b[0] in b && b[0] in a;
      FirstNameSame(a, b);
      NotInTail(a);
      NotInTail(b);
      forall name ensures name in a[1..] <==> name in b[1..] {
        assert name in a <==> name == a[0] || name in a[1..];
        assert name in b <==> name == b[0] || name in b[1..];
        assert name in a <==> name in b;
      }
      SortedNamesUnique(a[1..], b[1..]);
      assert a == [a[0]] + a[1..] && b == [b[0]] + b[1..];
    }
  }

  lemma NotInTail(a: seq<Name>)
    requires NamesSorted(a) && a != []
    ensures a[0] !in a[1..]
  {
    hide NameLess;
    NameLessIrreflexive(a[0]);
    forall i | 1 <= i < |a| ensures a[i] != a[0] {
      assert NameLess(a[0], a[i]);
    }
  }

  lemma FirstNameSame(a: seq<Name>, b: seq<Name>)
    requires NamesSorted(a) && NamesSorted(b) && a != [] && b != []
    requires b[0] in a && a[0] in b
    ensures a[0] == b[0]
  {
    hide NameLess;
    var i :| 0 <= i < |a| && a[i] == b[0];
    var j :| 0 <= j < |b| && b[j] == a[0];
    if i > 0 && j > 0 {
      assert NameLess(a[0], b[0]) && NameLess(b[0], a[0]);
      NameLessTransitive(a[0], b[0], a[0]);
      NameLessIrreflexive(a[0]);
    }
  }

  /** A directory determines its level lists. */
  lemma DiscoveryIsUnique(dir: Directory, a: LevelList, b: LevelList)
    requires IsDiscovered(dir, a) && IsDiscovered(dir, b)
    ensures a == b
  {
    hide NamesSorted, FiledUnder;
    SameDepth(dir, a, b);
    SameDepth(dir, b, a);
    forall i | 0 <= i < |a| ensures a[i] == b[i] {
      assert IsLevelOf(dir, a[i], i) && IsLevelOf(dir, b[i], i);
      SortedNamesUnique(a[i], b[i]);
    }
  }

  lemma SameDepth(dir: Directory, a: LevelList, b: LevelList)
    requires IsDiscovered(dir, a) && IsDiscovered(dir, b)
    ensures |a| <= |b|
  {
    hide NamesSorted, FiledUnder;
    if |a| > 2 {
      var i := |a| - 1;
      var name := a[i][0];
      assert IsLevelOf(dir, a[i], i) && name in a[i];
      assert FiledUnder(dir, name, i);
    }
  }
}
