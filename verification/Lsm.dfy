/** The engine: one object whose operations are proved against the store functions. */
module Lsm {
  import opened Wrappers
  import opened Bytes
  import opened Names
  import opened Storage
  import opened Tables
  import opened Bloom
  import opened SsTableFormat
  import opened SsTableWriter
  import opened SsTableReader
  import opened WalFormat
  import opened MemTable
  import opened Levels
  import opened Wal
  import opened Stores

  datatype LsmError = Io

  // ---------- the directory scan ----------

  /** Inserts a name into a sorted list. */
  function InsertName(names: seq<Name>, name: Name): seq<Name> {
    if names == [] || NameLess(name, names[0]) then [name] + names
    else [names[0]] + InsertName(names[1..], name)
  }

  lemma {:induction false} InsertNameSorted(names: seq<Name>, name: Name)
    requires NamesSorted(names) && name !in names
    ensures NamesSorted(InsertName(names, name))
    ensures forall n :: n in InsertName(names, name) <==> n in names || n == name
  {
    hide NameLess;
    if names != [] && !NameLess(name, names[0]) {
      InsertNameSorted(names[1..], name);
      NameLessConnected(name, names[0]);
      var rest := InsertName(names[1..], name);
      forall i | 0 <= i < |rest| ensures NameLess(names[0], rest[i]) {
        assert rest[i] in rest;
        assert rest[i] in names[1..] || rest[i] == name;
      }
      assert names == [names[0]] + names[1..];
    } else if names != [] {
      forall i | 0 <= i < |names| ensures NameLess(name, names[i]) {
        if i > 0 {
          NameLessTransitive(name, names[0], names[i]);
        }
      }
    }
  }

  /** The sort that ends the directory scan. */
  method SortNames(names: seq<Name>) returns (r: seq<Name>)
    requires forall i, j | 0 <= i < j < |names| :: names[i] != names[j]
    ensures NamesSorted(r) && forall n :: n in r <==> n in names
  {
    hide NameLess;
    r := [];
    for i := 0 to |names|
      invariant NamesSorted(r) && forall n :: n in r <==> n in names[..i]
    {
      assert names[i] !in names[..i];
      InsertNameSorted(r, names[i]);
      r := InsertName(r, names[i]);
      assert names[..i + 1] == names[..i] + [names[i]];
    }
    assert names[..|names|] == names;
  }

  /** Exactly the scanned names of one level, each once. */
  ghost predicate Filed(scanned: set<Name>, names: seq<Name>, level: nat) {
    && (forall i, j | 0 <= i < j < |names| :: names[i] != names[j])
    && (forall name :: name in names <==> name in scanned && LevelOf(name) == Some(level))
  }

  ghost predicate FiledLevels(scanned: set<Name>, levels: LevelList) {
    && |levels| >= 2
    && (forall i | 0 <= i < |levels| :: Filed(scanned, levels[i], i))
    && (forall name | name in scanned && LevelOf(name).Some? :: LevelOf(name).value < |levels|)
    && (|levels| > 2 ==> levels[|levels| - 1] != [])
  }

  lemma FiledSkip(scanned: set<Name>, levels: LevelList, name: Name)
    requires FiledLevels(scanned, levels) && LevelOf(name).None?
    ensures FiledLevels(scanned + {name}, levels)
  {
    hide LevelOf;
    forall i | 0 <= i < |levels| ensures Filed(scanned + {name}, levels[i], i) {
      assert Filed(scanned, levels[i], i);
    }
  }

  function Deepened(levels: LevelList, level: nat): LevelList {
    levels + seq(if |levels| <= level then level + 1 - |levels| else 0, _ => [])
  }

  lemma FiledPush(scanned: set<Name>, levels: LevelList, name: Name, level: nat)
    requires FiledLevels(scanned, levels) && LevelOf(name) == Some(level) && name !in scanned
    ensures var deep := Deepened(levels, level);
            FiledLevels(scanned + {name}, deep[level := deep[level] + [name]])
  {
    hide LevelOf;
    var deep := Deepened(levels, level);
    var next := deep[level := deep[level] + [name]];
    forall i | 0 <= i < |next| ensures Filed(scanned + {name}, next[i], i) {
      if i < |levels| {
        assert Filed(scanned, levels[i], i);
      } else {
        assert deep[i] == [];
      }
    }
  }

  /** `discover_levels`: the files of the directory in any order, filed by the level in their name. */
  method DiscoverLevels(disk: Disk) returns (levels: LevelList)
    ensures IsDiscovered(disk.files, levels)
  {
    hide LevelOf, NameLess;
    levels := [[], []];
    var left := disk.files.Keys;
    while left != {}
      invariant left <= disk.files.Keys
      invariant FiledLevels(disk.files.Keys - left, levels)
      decreases left
    {
      var name :| name in left;
      ghost var scanned := disk.files.Keys - left;
      left := left - {name};
      assert disk.files.Keys - left == scanned + {name};
      var level := LevelOf(name);
      if level.Some? {
        FiledPush(scanned, levels, name, level.value);
        levels := Deepened(levels, level.value);
        levels := levels[level.value := levels[level.value] + [name]];
      } else {
        FiledSkip(scanned, levels, name);
      }
    }
    assert disk.files.Keys - left == disk.files.Keys;
    ghost var filed := levels;
    for i := 0 to |levels|
      invariant |levels| == |filed|
      invariant forall j | 0 <= j < i :: IsLevelOf(disk.files, levels[j], j)
      invariant forall j | i <= j < |levels| :: levels[j] == filed[j]
      invariant forall j | 0 <= j < |levels| :: levels[j] == [] <==> filed[j] == []
    {
      assert Filed(disk.files.Keys, filed[i], i);
      var sorted := SortNames(levels[i]);
      assert sorted == [] || sorted[0] in sorted;
      assert levels[i] == [] || levels[i][0] in levels[i];
      levels := levels[i := sorted];
    }
  }

  // ---------- the read path ----------

  /** Files in the order they are tried: the first that knows the key answers, unless one before it does not
      open. */
  function Search(dir: Directory, names: seq<Name>, key: Bytes): Result<Option<Bytes>, LsmError> {
    if names == [] then Ok(None)
    else if !Opens(dir, names[0]) then Err(LsmError.Io)
    else if Lookup(TableAt(dir, names[0]), key).Some? then Ok(Lookup(TableAt(dir, names[0]), key))
    else Search(dir, names[1..], key)
  }

  /** The file at position `i` ends the search: all files before it open and do not know the key, and it does not
      open or knows the key. */
  predicate EndsAt(dir: Directory, names: seq<Name>, key: Bytes, i: nat) {
    && i < |names|
    && (forall j | 0 <= j < i :: Opens(dir, names[j]) && Lookup(TableAt(dir, names[j]), key).None?)
    && (Opens(dir, names[i]) ==> Lookup(TableAt(dir, names[i]), key).Some?)
  }

  /** What the search returns: the error or the record of the file it ends at, or nothing if it ends at none. */
  lemma {:induction false} SearchOutcome(dir: Directory, names: seq<Name>, key: Bytes)
    ensures Search(dir, names, key) == Ok(None) <==> forall i: nat :: !EndsAt(dir, names, key, i)
    ensures forall i: nat | EndsAt(dir, names, key, i) ::
              Search(dir, names, key) ==
              if Opens(dir, names[i]) then Ok(Lookup(TableAt(dir, names[i]), key)) else Err(LsmError.Io)
  {
    hide Opens, TableAt, Lookup;
    if names != [] {
      SearchOutcome(dir, names[1..], key);
      assert forall i: nat | EndsAt(dir, names, key, i) :: i == 0 || EndsAt(dir, names[1..], key, i - 1);
      if !EndsAt(dir, names, key, 0) {
        forall i: nat | EndsAt(dir, names[1..], key, i) ensures EndsAt(dir, names, key, i + 1) {
          assert forall j | 1 <= j < i + 1 :: names[j] == names[1..][j - 1];
        }
        assert forall i: nat | EndsAt(dir, names, key, i) :: i > 0 && EndsAt(dir, names[1..], key, i - 1);
      }
    }
  }

  /** A hit as `get` returns it: tombstones read as absent. */
  function Revealed(hit: Result<Option<Bytes>, LsmError>): Result<Option<Bytes>, LsmError> {
    if hit.Ok? then Ok(Live(hit.value)) else hit
  }

  /** What `get` returns: a file that does not open is an error only if the read reaches it. */
  function Answer(s: Store, key: Bytes): Result<Option<Bytes>, LsmError> {
    if key in s.mem then Ok(Live(Some(s.mem[key])))
    else Revealed(Search(s.dir, ReadOrder(s.levels), key))
  }

  /** The lookup in this file does not panic: it does not open, or its filter has as many bits as it says. */
  predicate IsReadable(dir: Directory, name: Name) {
    name in dir ==>
      match OpenFile(dir[name])
      case Failed => true
      case Panicked => false
      case Opened(h) => FilterWorks(h)
  }

  predicate FilterWorks(h: Handle) {
    (h.k > 0 ==> h.m > 0) && h.k < Pow256(8) && h.m < Pow256(8) && |h.bits| == ByteLength(h.m)
  }

  predicate AreReadable(dir: Directory, names: seq<Name>) {
    forall n | n in names :: IsReadable(dir, n)
  }

  /** Opening the file fails, or some writer finished it. */
  ghost predicate IsSound(dir: Directory, name: Name) {
    name in dir && !OpenFile(dir[name]).Failed? ==> IsSsTable(dir, name)
  }

  ghost predicate AreSound(dir: Directory, names: seq<Name>) {
    forall n | n in names :: IsSound(dir, n)
  }

  /** Finished files never make a lookup panic. */
  lemma SoundIsReadable(dir: Directory, name: Name)
    requires IsSound(dir, name)
    ensures IsReadable(dir, name)
  {
    hide OpenFile, FileBytes, FileFits, Index, Data, FilterOf, Sorted, Pow256;
    if name in dir && !OpenFile(dir[name]).Failed? {
      var t, s :| IsFileOf(dir[name], t, s);
      OpenOfFileBytes(t, s);
    }
  }

  /** With all files in place, `get` never fails and reads the store. */
  lemma {:induction false} SearchFindsFirstHit(dir: Directory, names: seq<Name>, key: Bytes)
    requires AreSsTables(dir, names)
    ensures Search(dir, names, key) == Ok(FirstHit(TablesAt(dir, names), key)) && AreSound(dir, names)
  {
    hide IsSsTable, TableOf, OpenFile, Lookup;
    if names != [] {
      SsTableIsTable(dir, names[0]);
      assert TablesAt(dir, names)[1..] == TablesAt(dir, names[1..]);
      assert forall i | 0 <= i < |names| - 1 :: names[1..][i] == names[i + 1];
      SearchFindsFirstHit(dir, names[1..], key);
    }
    forall n | n in names ensures IsSound(dir, n) {
      var i :| 0 <= i < |names| && names[i] == n;
      assert IsSsTable(dir, names[i]);
    }
  }

  lemma AnswerReadsTheStore(s: Store, key: Bytes)
    requires AreSsTables(s.dir, ReadOrder(s.levels))
    ensures Answer(s, key) == Ok(Read(s, key)) && AreSound(s.dir, ReadOrder(s.levels))
  {
    hide AreSsTables, AreSound, Search, FirstHit, TablesAt, ReadOrder;
    SearchFindsFirstHit(s.dir, ReadOrder(s.levels), key);
  }

  lemma {:induction false} SearchSplit(dir: Directory, a: seq<Name>, b: seq<Name>, key: Bytes)
    ensures Search(dir, a + b, key) ==
            if Search(dir, a, key) == Ok(None) then Search(dir, b, key) else Search(dir, a, key)
  {
    hide TableAt, Lookup, Opens;
    if a == [] {
      assert a + b == b;
    } else {
      assert (a + b)[1..] == a[1..] + b;
      SearchSplit(dir, a[1..], b, key);
    }
  }

  // ---------- the engine ----------

  class Lsm {
    const disk: Disk
    var mem: MemTable
    const wal: Wal
    const levels: LevelManager
    const flushThreshold: nat
    const sizing: Sizing

    ghost predicate Valid()
      reads this
    {
      wal.disk == disk
    }

    ghost function Contents(): Store
      reads this, disk, mem, levels
    {
      Store(mem.data, disk.files, levels.levels)
    }

    /** `open`: replays the log and rediscovers the level files. */
    constructor (disk: Disk, flushThreshold: nat, sizing: Sizing)
      modifies disk
      ensures Valid() && fresh(mem) && fresh(levels) && fresh(wal)
      ensures this.disk == disk && this.flushThreshold == flushThreshold && this.sizing == sizing
      ensures disk.files == old(disk.files)[WAL_NAME := LogOf(old(disk.files))]
      ensures Contents() == Store(MemOf(Replayed(LogOf(old(disk.files)))), disk.files, levels.levels)
      ensures IsDiscovered(disk.files, levels.levels)
    {
      hide Replayed, LevelOf, IsDiscovered;
      var log := new Wal(disk);
      var entries := Replay(LogOf(disk.files));
      var table := new MemTable();
      for i := 0 to |entries|
        invariant table.data == MemOf(entries[..i]) && fresh(table)
        invariant disk.files == old(disk.files)[WAL_NAME := LogOf(old(disk.files))]
      {
        assert entries[..i + 1][..i] == entries[..i] && entries[..i + 1][i] == entries[i];
        match entries[i] {
          case Put(key, value) => table.Set(key, value);
          case Delete(key) => table.Delete(key);
        }
      }
      assert entries[..|entries|] == entries;
      var found := DiscoverLevels(disk);
      var manager := new LevelManager(found);
      this.disk, wal, mem, levels := disk, log, table, manager;
      this.flushThreshold, this.sizing := flushThreshold, sizing;
    }

    method Set(key: Bytes, value: Bytes, now: nat)
      requires Valid()
      modifies this, disk, mem, levels
      ensures Valid() && (mem == old(mem) || fresh(mem))
      ensures Contents() == Written(old(Contents()), Put(key, value), flushThreshold, now, sizing)
    {
      hide Entries, Encoding, LogOf;
      wal.Append(Put(key, value));
      mem.Set(key, value);
      var size := mem.SizeBytes();
      if size >= flushThreshold {
        FlushMemtable(now);
      }
    }

    method Delete(key: Bytes, now: nat)
      requires Valid()
      modifies this, disk, mem, levels
      ensures Valid() && (mem == old(mem) || fresh(mem))
      ensures Contents() == Written(old(Contents()), WalEntry.Delete(key), flushThreshold, now, sizing)
    {
      hide Entries, Encoding, LogOf;
      wal.Append(WalEntry.Delete(key));
      mem.Delete(key);
      var size := mem.SizeBytes();
      if size >= flushThreshold {
        FlushMemtable(now);
      }
    }

    method FlushMemtable(now: nat)
      requires Valid()
      modifies this, disk, levels
      ensures Valid() && fresh(mem)
      ensures Contents() == Flushed(old(Contents()), now, sizing)
    {
      hide Entries, FileBytes, LevelName, TmpName, WithL0File;
      var path := LevelName(0, now);
      var oldMem := mem;
      mem := new MemTable();
      oldMem.Flush(disk, path, sizing);
      wal.Truncate();
      levels.AddL0File(path);
    }

    /** One wake-up of the background thread. */
    method CompactIfNeeded(now: nat) returns (r: Result<(), CompactionError>)
      requires Valid()
      requires AreUsable(disk.files, Padded(levels.levels)[0]) && AreUsable(disk.files, Padded(levels.levels)[1])
      modifies disk, levels
      ensures Valid() && mem.data == old(mem.data)
      ensures (levels.levels, disk.files, r) ==
              if old(levels.levels) != [] && |old(levels.levels)[0]| >= 4
              then var o := CompactionOutcome(old(levels.levels), old(disk.files), now, sizing);
                   (o.levels, o.dir, o.result)
              else (old(levels.levels), old(disk.files), Ok(()))
    {
      hide CompactionOutcome, AreUsable;
      var needed := levels.NeedsCompaction();
      if needed {
        r := levels.Compact(disk, now, sizing);
      } else {
        r := Ok(());
      }
    }

    /** `get`: memtable, then level 0 newest first, then every deeper level in order. */
    method Get(key: Bytes) returns (r: Result<Option<Bytes>, LsmError>)
      requires Valid() && AreReadable(disk.files, ReadOrder(levels.levels))
      ensures AreSound(disk.files, ReadOrder(levels.levels)) ==> r == Answer(Contents(), key)
    {
      hide AreSound, AreReadable, Search;
      var inMem := mem.Get(key);
      if inMem.Some? {
        return Ok(Live(inMem));
      }
      var all := levels.levels;
      if all == [] {
        assert Search(disk.files, [], key) == Ok(None) by { NothingToSearch(disk.files, key); }
        return Ok(None);
      }
      ghost var sound := AreSound(disk.files, ReadOrder(all));
      var deeper := Flatten(all[1..]);
      SearchSplit(disk.files, Reversed(all[0]), deeper, key);
      FileListSplits(disk.files, Reversed(all[0]), deeper);
      FileListReverses(disk.files, all[0]);
      var hit := NewestFirst(all[0], key);
      if hit != Ok(None) {
        return Revealed(hit);
      }
      FlattenStep(all, 1);
      for level := 1 to |all|
        invariant sound ==> Search(disk.files, Flatten(all[level..]), key) == Search(disk.files, deeper, key)
        invariant sound ==> AreSound(disk.files, Flatten(all[level..]))
        invariant AreReadable(disk.files, Flatten(all[level..]))
      {
        FlattenStep(all, level);
        SearchSplit(disk.files, all[level], Flatten(all[level + 1..]), key);
        FileListSplits(disk.files, all[level], Flatten(all[level + 1..]));
        hit := InOrder(all[level], key);
        if hit != Ok(None) {
          return Revealed(hit);
        }
      }
      FlattenStep(all, |all|);
      NothingToSearch(disk.files, key);
      r := Ok(None);
    }

    /** The level-0 loop: the list is in flush order, so it is walked backwards. */
    method NewestFirst(names: seq<Name>, key: Bytes) returns (hit: Result<Option<Bytes>, LsmError>)
      requires AreReadable(disk.files, names)
      ensures AreSound(disk.files, names) ==> hit == Search(disk.files, Reversed(names), key)
    {
      hide TableAt, Lookup, IsSound, IsReadable, Opens;
      ghost var order, sound := Reversed(names), AreSound(disk.files, names);
      assert order[0..] == order;
      for i := |names| downto 0
        invariant sound ==> Search(disk.files, order[|names| - i..], key) == Search(disk.files, order, key)
      {
        ReversedAt(names, |names| - 1 - i);
        assert order[|names| - 1 - i..][1..] == order[|names| - i..];
        assert names[i] in names;
        hit := Probe(names[i], key);
        if hit != Ok(None) {
          return;
        }
      }
      assert order[|names|..] == [];
      hit := Ok(None);
    }

    /** The loop over one deeper level. */
    method InOrder(names: seq<Name>, key: Bytes) returns (hit: Result<Option<Bytes>, LsmError>)
      requires AreReadable(disk.files, names)
      ensures AreSound(disk.files, names) ==> hit == Search(disk.files, names, key)
    {
      hide TableAt, Lookup, IsSound, IsReadable, Opens;
      ghost var sound := AreSound(disk.files, names);
      assert names[0..] == names;
      for i := 0 to |names|
        invariant sound ==> Search(disk.files, names[i..], key) == Search(disk.files, names, key)
      {
        assert names[i..][1..] == names[i + 1..];
        assert names[i] in names;
        hit := Probe(names[i], key);
        if hit != Ok(None) {
          return;
        }
      }
      assert names[|names|..] == [];
      hit := Ok(None);
    }

    /** One file of the read path: open and look the key up. */
    method Probe(name: Name, key: Bytes) returns (hit: Result<Option<Bytes>, LsmError>)
      requires IsReadable(disk.files, name)
      ensures !Opens(disk.files, name) ==> hit == Err(LsmError.Io)
      ensures IsSound(disk.files, name) && Opens(disk.files, name) ==> hit == Ok(Lookup(TableAt(disk.files, name), key))
    {
      hide FileBytes, OpenFile, Sorted, TableOf, Lookup;
      if name !in disk.files {
        return Err(LsmError.Io);
      }
      var outcome, reader := SsTableReader.Open(disk.files[name]);
      if outcome.Failed? {
        return Err(LsmError.Io);
      }
      ghost var t: Table := [];
      if IsSound(disk.files, name) {
        var table, s :| IsFileOf(disk.files[name], table, s);
        FileOfTable(disk.files[name], table, s);
        OpenedFileHolds(reader, table, s);
        t := table;
      }
      var raw;
      ghost var scanned;
      raw, scanned := reader.GetRaw(key, t, 0);
      hit := match raw case Ok(value) => Ok(value) case Err(_) => Err(LsmError.Io);
    }
  }

  lemma FileListSplits(dir: Directory, a: seq<Name>, b: seq<Name>)
    ensures AreReadable(dir, a + b) <==> AreReadable(dir, a) && AreReadable(dir, b)
    ensures AreSound(dir, a + b) <==> AreSound(dir, a) && AreSound(dir, b)
  {
    hide IsReadable, IsSound;
  }

  lemma FileListReverses(dir: Directory, names: seq<Name>)
    ensures AreReadable(dir, Reversed(names)) <==> AreReadable(dir, names)
    ensures AreSound(dir, Reversed(names)) <==> AreSound(dir, names)
  {
    hide IsReadable, IsSound;
    ReversedHas(names);
  }

  lemma NothingToSearch(dir: Directory, key: Bytes)
    ensures Search(dir, [], key) == Ok(None)
  {
  }

  lemma FlattenStep(levels: LevelList, i: nat)
    requires i <= |levels|
    ensures i < |levels| ==> Flatten(levels[i..]) == levels[i] + Flatten(levels[i + 1..])
    ensures i == |levels| ==> Flatten(levels[i..]) == []
  {
    if i < |levels| {
      assert levels[i..][1..] == levels[i + 1..];
    }
  }
}
