/** Many client threads and process crashes: when an appended record survives, and when a flush of
    another thread loses it. */
module Survival {
  import opened Wrappers
  import opened Bytes
  import opened Names
  import opened Storage
  import opened Tables
  import opened SsTableFormat
  import opened WalFormat
  import opened MemTable
  import opened Compaction
  import opened Levels
  import opened Wal
  import opened Stores
  import opened Machine
  import opened Durable
  import opened Conservation
  import opened Recovery

  // ---------- what a crash leaves ----------

  /** The directory scan files this name, and its table knows the key. */
  predicate FileKnows(dir: Directory, name: Name, key: Bytes) {
    name in dir && LevelOf(name).Some? && Lookup(TableAt(dir, name), key).Some?
  }

  ghost predicate OnDisk(dir: Directory, key: Bytes) {
    exists name :: FileKnows(dir, name, key)
  }

  ghost predicate SomeoneLogged(s: System, key: Bytes) {
    exists t | t in s.clients :: s.clients[t].Logged? && s.clients[t].entry.key == key
  }

  /** The table swapped out by the flush that holds the log lock knows the key. */
  ghost predicate HolderHas(s: System, key: Bytes) {
    exists t | t in s.clients :: HoldsWal(s.clients[t]) && key in s.clients[t].table
  }

  // ---------- the invariant ----------

  /** Every level file is finished, was named by this store, and gives the key no other value. */
  ghost predicate DirOk(dir: Directory, clock: nat, w: Write) {
    forall n | n in dir && LevelOf(n).Some? :: (Issued(n, 0, clock) || Issued(n, 1, clock)) && GoodFile(dir, n, w)
  }

  /** Names handed out and not yet written are free. */
  ghost predicate NamesUnused(s: System) {
    forall t | t in s.clients && (s.clients[t].Named? || s.clients[t].Swapped?) :: s.clients[t].name !in s.dir
  }

  ghost predicate OneHolder(s: System) {
    forall t, u | t in s.clients && u in s.clients && HoldsWal(s.clients[t]) && HoldsWal(s.clients[u]) :: t == u
  }

  /** Where the memory side keeps a key of the log that no file knows. */
  ghost predicate Covered(s: System, key: Bytes) {
    key in LogMem(s.dir) ==>
      OnDisk(s.dir, key) || (if WalFree(s) then key in s.mem || SomeoneLogged(s, key) else HolderHas(s, key))
  }

  ghost predicate Recoverable(s: System, key: Bytes) {
    key in s.logged ==> key in LogMem(s.dir) || OnDisk(s.dir, key)
  }

  ghost predicate AppendedFirst(s: System, key: Bytes) {
    (key in s.inserted ==> key in s.logged) && (SomeoneLogged(s, key) ==> key in s.logged)
  }

  ghost predicate LogInv(s: System, w: Write) {
    && Clean(LogOf(s.dir)) && OnlyValue(LogMem(s.dir), w)
    && DirOk(s.dir, s.clock, w) && NamesUnused(s) && OneHolder(s)
    && AppendedFirst(s, w.key)
  }

  /** What the log and the files give back now, and will give back after the next truncation. */
  ghost predicate Safe(s: System, key: Bytes) {
    Recoverable(s, key) && Covered(s, key)
  }

  /** No memtable is swapped out beside a write of the key that is logged and not inserted, unless the
      swapped table or a file has the record already. */
  ghost predicate Guarded(s: System, e: Event, w: Write) {
    e.Swap? && SomeoneLogged(s, w.key) ==> w.key in s.mem || OnDisk(s.dir, w.key)
  }

  // ---------- directories ----------

  lemma FilesStay(a: Directory, b: Directory, key: Bytes)
    requires forall n | n in a && LevelOf(n).Some? :: n in b && b[n] == a[n]
    ensures OnDisk(a, key) ==> OnDisk(b, key)
  {
    hide LevelOf, TableOf, Lookup;
    if OnDisk(a, key) {
      var n :| FileKnows(a, n, key);
      assert FileKnows(b, n, key);
    }
  }

  lemma DirectoryMoves(s: System, dir: Directory, w: Write)
    requires LogInv(s, w) && LogOf(dir) == LogOf(s.dir)
    requires DirOk(dir, s.clock, w) && NamesUnused(s.(dir := dir))
    requires OnDisk(s.dir, w.key) ==> OnDisk(dir, w.key)
    ensures LogInv(s.(dir := dir), w) && (Safe(s, w.key) ==> Safe(s.(dir := dir), w.key))
  {
    hide DirOk, OnDisk, Clean, OnlyValue, LogOf, Replayed, MemOf;
  }

  /** The directory changes only under a name the scan skips. */
  ghost predicate SkippedChange(dir: Directory, after: Directory, x: Name) {
    LevelOf(x).None? && forall n | n != x :: (n in after <==> n in dir) && (n in dir ==> after[n] == dir[n])
  }

  lemma SkippedFacts(dir: Directory, after: Directory, x: Name, clock: nat, w: Write)
    requires SkippedChange(dir, after, x) && DirOk(dir, clock, w)
    ensures DirOk(after, clock, w) && (OnDisk(after, w.key) <==> OnDisk(dir, w.key))
  {
    hide LevelOf, TableOf, Lookup, IsFileOf, Issued;
    FilesStay(dir, after, w.key);
    FilesStay(after, dir, w.key);
    forall n | n in after && LevelOf(n).Some? ensures GoodFile(after, n, w) {
      assert GoodFile(dir, n, w);
    }
  }

  lemma UnusedStay(s: System, dir: Directory, x: Name, w: Write)
    requires WriteInv(s, w) && NamesUnused(s) && SkippedChange(s.dir, dir, x)
    ensures NamesUnused(s.(dir := dir))
  {
    hide LevelOf, Issued, GoodFiles, KnownIn, OnlyValue, IsSsTable, TableAt, Entries;
    forall t | t in s.clients && (s.clients[t].Named? || s.clients[t].Swapped?) ensures s.clients[t].name != x {
      assert ThreadInv(s, t, w) && Holds(s.clients[t], s.clients[t].name);
      IssuedLevel(s.clients[t].name, 0, s.clock);
    }
  }

  /** Writes under a temporary name. */
  lemma {:induction false} TmpMoves(s: System, dir: Directory, target: Name, w: Write)
    requires WriteInv(s, w) && LogInv(s, w) && SkippedChange(s.dir, dir, TmpName(target))
    ensures LogInv(s.(dir := dir), w) && (Safe(s, w.key) ==> Safe(s.(dir := dir), w.key))
  {
    hide DirOk, OnDisk, Clean, OnlyValue, Replayed, MemOf, WriteInv, TmpName, LevelOf, NamesUnused;
    TmpAndWalAreSkipped(target);
    SkippedFacts(s.dir, dir, TmpName(target), s.clock, w);
    UnusedStay(s, dir, TmpName(target), w);
    assert LogOf(dir) == LogOf(s.dir);
    DirectoryMoves(s, dir, w);
  }

  /** A finished level file appears under a name no thread is about to write. */
  lemma FileAppears(s: System, name: Name, file: Bytes, w: Write)
    requires LogInv(s, w) && name !in s.dir && LevelOf(name).Some?
    requires Issued(name, 0, s.clock) || Issued(name, 1, s.clock)
    requires GoodFile(s.dir[name := file], name, w)
    requires forall t | t in s.clients && (s.clients[t].Named? || s.clients[t].Swapped?) :: s.clients[t].name != name
    ensures LogInv(s.(dir := s.dir[name := file]), w) &&
            (Safe(s, w.key) ==> Safe(s.(dir := s.dir[name := file]), w.key))
  {
    hide OnDisk, Clean, OnlyValue, Replayed, MemOf, LevelOf, Issued, IsFileOf, TableOf, Lookup;
    var dir := s.dir[name := file];
    WalIsSkipped();
    FilesStay(s.dir, dir, w.key);
    forall n | n in dir && LevelOf(n).Some? && n != name ensures GoodFile(dir, n, w) {
      assert GoodFile(s.dir, n, w);
    }
    DirectoryMoves(s, dir, w);
  }

  // ---------- clients ----------

  /** A thread moves on without taking or releasing the log lock. */
  lemma ClientMoves(s: System, t: Tid, pc: Pc, w: Write)
    requires LogInv(s, w) && t in s.clients && !pc.Logged?
    requires HoldsWal(pc) <==> HoldsWal(s.clients[t])
    requires HoldsWal(pc) ==> pc.table == s.clients[t].table
    requires s.clients[t].Logged? && s.clients[t].entry.key == w.key ==> w.key in s.mem
    requires pc.Named? || pc.Swapped? ==> pc.name !in s.dir
    ensures LogInv(s.(clients := s.clients[t := pc]), w) &&
            (Safe(s, w.key) ==> Safe(s.(clients := s.clients[t := pc]), w.key))
  {
    hide OnDisk, Clean, OnlyValue, LogMem, DirOk, LogOf;
    var after := s.(clients := s.clients[t := pc]);
    if SomeoneLogged(s, w.key) && w.key !in s.mem {
      var u :| u in s.clients && s.clients[u].Logged? && s.clients[u].entry.key == w.key;
      assert after.clients[u] == s.clients[u];
    }
    if SomeoneLogged(after, w.key) {
      var u :| u in after.clients && after.clients[u].Logged? && after.clients[u].entry.key == w.key;
      assert s.clients[u] == after.clients[u];
    }
    assert WalFree(after) <==> WalFree(s) by {
      assert forall u | u in s.clients :: HoldsWal(after.clients[u]) <==> HoldsWal(s.clients[u]);
    }
    if HolderHas(s, w.key) {
      var u :| u in s.clients && HoldsWal(s.clients[u]) && w.key in s.clients[u].table;
      assert HoldsWal(after.clients[u]) && w.key in after.clients[u].table;
    }
  }

  /** Facts about the memtable, the level lists, the compaction thread and the clock. */
  lemma MemoryMoves(s: System, after: System, w: Write)
    requires LogInv(s, w) && after.dir == s.dir && after.clients == s.clients && after.logged == s.logged
    requires s.clock <= after.clock && (w.key in s.mem ==> w.key in after.mem)
    requires w.key in after.inserted ==> w.key in s.inserted || w.key in s.logged
    ensures LogInv(after, w) && (Safe(s, w.key) ==> Safe(after, w.key))
  {
    hide OnDisk, Clean, OnlyValue, LogMem, Issued, GoodFile, LevelOf;
    forall n | n in s.dir && LevelOf(n).Some? ensures Issued(n, 0, after.clock) || Issued(n, 1, after.clock) {
      if Issued(n, 0, s.clock) {
        IssuedLater(n, 0, s.clock, after.clock);
      } else {
        IssuedLater(n, 1, s.clock, after.clock);
      }
    }
    assert WalFree(after) <==> WalFree(s);
    assert SomeoneLogged(after, w.key) <==> SomeoneLogged(s, w.key);
    assert HolderHas(after, w.key) <==> HolderHas(s, w.key);
  }

  // ---------- every step keeps the invariant ----------

  lemma LogAppend(s: System, t: Tid, entry: WalEntry, w: Write)
    requires WriteInv(s, w) && LogInv(s, w) && CanAppend(s, t, entry) && OnlyWrites(Append(t, entry), w)
    ensures LogInv(AfterAppend(s, t, entry), w) && (Safe(s, w.key) ==> Safe(AfterAppend(s, t, entry), w.key))
  {
    hide OnDisk, Clean, LogOf, Replayed, MemOf, DirOk, WriteInv, NamesUnused, LevelOf, WithLogged;
    var after := AfterAppend(s, t, entry);
    LogAfterAppend(s.dir, entry);
    assert SkippedChange(s.dir, after.dir, WAL_NAME) by { LogIsSkipped(s.dir, entry); }
    SkippedFacts(s.dir, after.dir, WAL_NAME, s.clock, w);
    assert NamesUnused(after) by {
      UnusedStay(s, after.dir, WAL_NAME, w);
      FewerUnused(s.(dir := after.dir), after, t, Logged(entry));
    }
    assert AppendedFirst(after, w.key) by { LoggedFirst(s, t, entry, w.key); }
    assert WalFree(after) && (SomeoneLogged(s, w.key) ==> SomeoneLogged(after, w.key)) by {
      OthersStay(s, t, entry, w.key);
    }
    assert entry.key == w.key ==> SomeoneLogged(after, w.key) by {
      assert after.clients[t] == Logged(entry);
    }
  }

  lemma LogIsSkipped(dir: Directory, entry: WalEntry)
    ensures SkippedChange(dir, WithLogged(dir, entry), WAL_NAME) && SkippedChange(dir, WithoutLog(dir), WAL_NAME)
  {
    hide LevelOf, LogOf, Encoding;
    WalIsSkipped();
  }

  lemma FewerUnused(s: System, after: System, t: Tid, pc: Pc)
    requires NamesUnused(s) && !pc.Named? && !pc.Swapped?
    requires after.dir == s.dir && after.clients == s.clients[t := pc]
    ensures NamesUnused(after)
  {
  }

  lemma LoggedFirst(s: System, t: Tid, entry: WalEntry, key: Bytes)
    requires AppendedFirst(s, key)
    ensures AppendedFirst(AfterAppend(s, t, entry), key)
  {
    hide WithLogged;
    var after := AfterAppend(s, t, entry);
    if SomeoneLogged(after, key) {
      var u :| u in after.clients && after.clients[u].Logged? && after.clients[u].entry.key == key;
      assert u != t ==> s.clients[u] == after.clients[u];
    }
  }

  lemma OthersStay(s: System, t: Tid, entry: WalEntry, key: Bytes)
    requires CanAppend(s, t, entry)
    ensures WalFree(AfterAppend(s, t, entry))
    ensures SomeoneLogged(s, key) ==> SomeoneLogged(AfterAppend(s, t, entry), key)
  {
    hide WithLogged, Applied;
    var after := AfterAppend(s, t, entry);
    if SomeoneLogged(s, key) {
      var u :| u in s.clients && s.clients[u].Logged? && s.clients[u].entry.key == key;
      assert after.clients[u] == s.clients[u];
    }
  }

  lemma LogInsert(s: System, t: Tid, c: Config, w: Write)
    requires LogInv(s, w) && CanInsert(s, t)
    ensures LogInv(AfterInsert(s, t, c), w) && (Safe(s, w.key) ==> Safe(AfterInsert(s, t, c), w.key))
  {
    hide OnDisk, Clean, OnlyValue, LogMem, DirOk, LogInv, Safe, MustFlush;
    var after := AfterInsert(s, t, c);
    var filled := s.(mem := after.mem, inserted := after.inserted);
    assert w.key in after.inserted ==> w.key in s.logged by { LoggedByThread(s, t, w); }
    MemoryMoves(s, filled, w);
    ClientMoves(filled, t, after.clients[t], w);
  }

  lemma LoggedByThread(s: System, t: Tid, w: Write)
    requires LogInv(s, w) && CanInsert(s, t)
    ensures w.key in Applied(s.inserted, PcOf(s, t).entry) ==> w.key in s.logged
  {
    hide OnDisk, Clean, OnlyValue, LogMem, DirOk, Covered, NamesUnused, OneHolder;
    assert s.clients[t].Logged?;
  }

  lemma LogChooseName(s: System, t: Tid, c: Config, w: Write)
    requires LogInv(s, w) && CanChooseName(s, t, c)
    ensures LogInv(AfterChooseName(s, t), w) && (Safe(s, w.key) ==> Safe(AfterChooseName(s, t), w.key))
  {
    hide OnDisk, Clean, OnlyValue, LogMem, LogInv, Safe, LevelName, Decimal, DirOk;
    var name := LevelName(0, s.clock);
    assert name !in s.dir by { NewName(s, 0, w); }
    var timed := s.(clock := s.clock + 1);
    MemoryMoves(s, timed, w);
    ClientMoves(timed, t, Named(name), w);
  }

  /** The name of this instant is free. */
  lemma NewName(s: System, level: nat, w: Write)
    requires LogInv(s, w) && level < 2
    ensures LevelName(level, s.clock) !in s.dir
  {
    hide OnDisk, Clean, OnlyValue, LogMem, LevelName, LevelOf, GoodFile, Issued, Covered, NamesUnused, OneHolder;
    var name := LevelName(level, s.clock);
    LevelOfLevelName(level, s.clock);
    if Issued(name, 0, s.clock) {
      IssuedLevel(name, 0, s.clock);
      FreshName(name, level, s.clock);
    }
    if Issued(name, 1, s.clock) {
      IssuedLevel(name, 1, s.clock);
      FreshName(name, level, s.clock);
    }
  }

  lemma LogSwap(s: System, t: Tid, w: Write)
    requires LogInv(s, w) && CanSwap(s, t)
    ensures LogInv(AfterSwap(s, t), w) && (Safe(s, w.key) && Guarded(s, Swap(t), w) ==> Safe(AfterSwap(s, t), w.key))
  {
    hide OnDisk, Clean, OnlyValue, LogMem, DirOk;
    var after := AfterSwap(s, t);
    assert after.clients[t] == Swapped(s.clients[t].name, s.mem);
    forall u | u in after.clients && u != t ensures after.clients[u] == s.clients[u] { }
    assert HoldsWal(after.clients[t]);
    if SomeoneLogged(after, w.key) {
      var u :| u in after.clients && after.clients[u].Logged? && after.clients[u].entry.key == w.key;
      assert s.clients[u] == after.clients[u];
    }
  }

  lemma LogScribble(s: System, target: Name, bytes: Bytes, w: Write)
    requires WriteInv(s, w) && LogInv(s, w)
    ensures LogInv(AfterScribble(s, target, bytes), w) &&
            (Safe(s, w.key) ==> Safe(AfterScribble(s, target, bytes), w.key))
  {
    hide WriteInv, LogInv, Safe, TmpName, LevelOf;
    TmpAndWalAreSkipped(target);
    TmpMoves(s, s.dir[TmpName(target) := bytes], target, w);
  }

  lemma LogRename(s: System, t: Tid, c: Config, w: Write)
    requires WriteInv(s, w) && LogInv(s, w) && CanRename(s, t, c)
    requires WriteInv(AfterRename(s, t, c), w)
    ensures LogInv(AfterRename(s, t, c), w) && (Safe(s, w.key) ==> Safe(AfterRename(s, t, c), w.key))
  {
    hide WriteInv, LogInv, Safe, TmpName, LevelOf, Entries, FileFits, FileBytes, Issued, GoodFile;
    var name, table, after := s.clients[t].name, s.clients[t].table, AfterRename(s, t, c);
    var file := FileBytes(Entries(table), c.sizing(|table|));
    var cleared := s.(dir := s.dir - {TmpName(name)});
    TmpAndWalAreSkipped(name);
    TmpMoves(s, cleared.dir, name, w);
    HeldName(s, t, w);
    ClientMoves(cleared, t, Renamed(name, table), w);
    var moved := cleared.(clients := s.clients[t := Renamed(name, table)]);
    assert after == moved.(dir := moved.dir[name := file]);
    RevealedFileIsGood(after, t, w);
    FileAppears(moved, name, file, w);
  }

  /** The name a flush is about to write: issued, free, and nobody else's. */
  lemma HeldName(s: System, t: Tid, w: Write)
    requires WriteInv(s, w) && LogInv(s, w) && PcOf(s, t).Swapped?
    ensures Issued(s.clients[t].name, 0, s.clock) && LevelOf(s.clients[t].name).Some? && s.clients[t].name !in s.dir
    ensures forall u | u in s.clients && u != t && (s.clients[u].Named? || s.clients[u].Swapped?) ::
              s.clients[u].name != s.clients[t].name
  {
    hide OnDisk, Clean, OnlyValue, LogMem, DirOk, Covered, LevelOf, Issued, GoodFiles, KnownIn, IsSsTable, TableAt;
    hide Entries;
    var name := s.clients[t].name;
    assert ThreadInv(s, t, w) && Holds(s.clients[t], name);
    IssuedLevel(name, 0, s.clock);
    forall u | u in s.clients && u != t && (s.clients[u].Named? || s.clients[u].Swapped?)
      ensures s.clients[u].name != name
    {
      assert Holds(s.clients[u], s.clients[u].name);
    }
  }

  lemma RevealedFileIsGood(s: System, t: Tid, w: Write)
    requires WriteInv(s, w) && (PcOf(s, t).Renamed? || PcOf(s, t).Truncated?)
    ensures GoodFile(s.dir, s.clients[t].name, w)
    ensures w.key in s.clients[t].table ==> FileKnows(s.dir, s.clients[t].name, w.key)
  {
    hide IsFileOf, Entries, TableOf, Issued, Lookup, LevelOf, GoodFiles, KnownIn;
    assert ThreadInv(s, t, w) && Holds(s.clients[t], s.clients[t].name);
    IssuedLevel(s.clients[t].name, 0, s.clock);
    EntriesAreTheMap(s.clients[t].table);
  }

  lemma LogTruncate(s: System, t: Tid, w: Write)
    requires WriteInv(s, w) && LogInv(s, w) && PcOf(s, t).Renamed?
    ensures LogInv(AfterTruncate(s, t), w) && (Safe(s, w.key) ==> Safe(AfterTruncate(s, t), w.key))
  {
    hide Clean, LogOf, Replayed, MemOf, DirOk, WriteInv, NamesUnused, LevelOf, WithoutLog, OnDisk, OneHolder;
    hide AppendedFirst;
    var after := AfterTruncate(s, t);
    var pc := Truncated(s.clients[t].name, s.clients[t].table);
    LogAfterTruncate(s.dir);
    LogIsSkipped(s.dir, Delete([]));
    SkippedFacts(s.dir, after.dir, WAL_NAME, s.clock, w);
    UnusedStay(s, after.dir, WAL_NAME, w);
    FewerUnused(s.(dir := after.dir), after, t, pc);
    NothingWrong(w);
    assert Safe(s, w.key) && w.key in s.logged ==> OnDisk(s.dir, w.key) by {
      if Safe(s, w.key) && w.key in s.logged {
        TruncateIsCovered(s, t, w);
      }
    }
    StillAppendedFirst(s, after, t, pc, w.key);
    StillOneHolder(s, after, t, pc);
    assert LogMem(after.dir) == map[];
  }

  lemma StillOneHolder(s: System, after: System, t: Tid, pc: Pc)
    requires OneHolder(s) && !HoldsWal(pc) && after.clients == s.clients[t := pc]
    ensures OneHolder(after)
  {
  }

  lemma StillAppendedFirst(s: System, after: System, t: Tid, pc: Pc, key: Bytes)
    requires AppendedFirst(s, key) && !pc.Logged?
    requires after.clients == s.clients[t := pc] && after.inserted == s.inserted && after.logged == s.logged
    ensures AppendedFirst(after, key)
  {
    if SomeoneLogged(after, key) {
      var u :| u in after.clients && after.clients[u].Logged? && after.clients[u].entry.key == key;
      assert s.clients[u] == after.clients[u];
    }
  }

  /** When a flush truncates the log, everything appended is in a file. */
  lemma TruncateIsCovered(s: System, t: Tid, w: Write)
    requires WriteInv(s, w) && LogInv(s, w) && Safe(s, w.key) && PcOf(s, t).Renamed? && w.key in s.logged
    ensures OnDisk(s.dir, w.key)
  {
    hide WriteInv, Clean, OnlyValue, LogMem, DirOk, NamesUnused, FileKnows;
    RevealedFileIsGood(s, t, w);
    assert HoldsWal(s.clients[t]);
  }

  lemma LogRegister(s: System, t: Tid, w: Write)
    requires LogInv(s, w) && CanRegister(s, t)
    ensures LogInv(AfterRegister(s, t), w) && (Safe(s, w.key) ==> Safe(AfterRegister(s, t), w.key))
  {
    hide LogInv, Safe;
    ClientMoves(s, t, Idle, w);
    var moved := s.(clients := s.clients[t := Idle]);
    MemoryMoves(moved, AfterRegister(s, t), w);
  }

  lemma LogMerge(s: System, c: Config, w: Write)
    requires WriteInv(s, w) && LogInv(s, w) && CanMerge(s, c)
    requires WriteInv(AfterMerge(s, c), w)
    ensures LogInv(AfterMerge(s, c), w) && (Safe(s, w.key) ==> Safe(AfterMerge(s, c), w.key))
  {
    hide WriteInv, LogInv, Safe, TmpName, LevelOf, LevelName, FileBytes, Issued, GoodFile, Inputs, L1Part, Compacted;
    hide NonEmpty;
    hide TablesAt, TotalRecords, FileFits, Decimal;
    var output, after := LevelName(1, s.clock), AfterMerge(s, c);
    var cleared := s.(dir := s.dir - {TmpName(output)}, clock := s.clock + 1);
    TmpAndWalAreSkipped(output);
    NewName(s, 1, w);
    JustIssued(1, s.clock);
    LevelOfLevelName(1, s.clock);
    TmpMoves(s, cleared.dir, output, w);
    MemoryMoves(s.(dir := cleared.dir), cleared, w);
    OutputIsGood(after, output, w);
    NobodyWrites(s, output, w);
    FileAppears(cleared, output, after.dir[output], w);
    var revealed := cleared.(dir := cleared.dir[output := after.dir[output]]);
    assert revealed.dir == after.dir;
    MemoryMoves(revealed, after, w);
  }

  lemma OutputIsGood(s: System, output: Name, w: Write)
    requires WriteInv(s, w) && s.compactor.Merged? && s.compactor.output == output
    ensures GoodFile(s.dir, output, w)
  {
    hide GoodFile, ThreadInv, NamesApart, AllIssued, CompactorOk, OnlyValue;
    assert (s.l0 + s.l1 + [output])[|s.l0 + s.l1|] == output;
  }

  /** No thread is about to write a level-1 name. */
  lemma NobodyWrites(s: System, name: Name, w: Write)
    requires WriteInv(s, w) && LevelOf(name) == Some(1)
    ensures forall t | t in s.clients && (s.clients[t].Named? || s.clients[t].Swapped?) :: s.clients[t].name != name
  {
    hide LevelOf, Issued, GoodFiles, KnownIn, OnlyValue, IsSsTable, TableAt, Entries;
    forall t | t in s.clients && (s.clients[t].Named? || s.clients[t].Swapped?) ensures s.clients[t].name != name {
      assert ThreadInv(s, t, w) && Holds(s.clients[t], s.clients[t].name);
      IssuedLevel(s.clients[t].name, 0, s.clock);
    }
  }

  lemma LogDelete(s: System, w: Write)
    requires WriteInv(s, w) && LogInv(s, w) && s.compactor.Merged?
    ensures LogInv(AfterDelete(s), w) && (Safe(s, w.key) ==> Safe(AfterDelete(s), w.key))
  {
    hide WriteInv, LogInv, Safe, SetOf;
    var gone := SetOf(s.compactor.inputs);
    InputsGone(s, gone, w);
    MemoryMoves(s.(dir := s.dir - gone), AfterDelete(s), w);
  }

  /** Any part of the inputs of a compaction may be deleted. */
  lemma InputsGone(s: System, gone: set<Name>, w: Write)
    requires WriteInv(s, w) && LogInv(s, w) && MayBeGone(s, gone)
    ensures LogInv(s.(dir := s.dir - gone), w) && (Safe(s, w.key) ==> Safe(s.(dir := s.dir - gone), w.key))
  {
    hide WriteInv, LogInv, Safe, OnDisk, Clean, OnlyValue, LogMem, LevelOf, SetOf;
    if s.compactor.Merged? {
      GoneAreLevelFiles(s, gone, w);
      WalIsSkipped();
      assert LogOf(s.dir - gone) == LogOf(s.dir);
      GoneKeepDirOk(s, gone, w);
      DeleteKeepsRecord(s, gone, w);
      DirectoryMoves(s, s.dir - gone, w);
    } else {
      assert s.(dir := s.dir - gone) == s;
    }
  }

  lemma GoneAreLevelFiles(s: System, gone: set<Name>, w: Write)
    requires WriteInv(s, w) && s.compactor.Merged? && gone <= SetOf(s.compactor.inputs)
    ensures forall n | n in gone :: LevelOf(n).Some?
  {
    hide WriteInv, LevelOf;
    InputsAreLevelFiles(s, w);
    forall n | n in gone ensures LevelOf(n).Some? {
      InSetOf(s.compactor.inputs, n);
    }
  }

  lemma GoneKeepDirOk(s: System, gone: set<Name>, w: Write)
    requires LogInv(s, w)
    ensures DirOk(s.dir - gone, s.clock, w) && NamesUnused(s.(dir := s.dir - gone))
  {
    hide OnDisk, Clean, OnlyValue, LogMem, LevelOf, Issued, TableOf, IsFileOf, Lookup;
    var left := s.dir - gone;
    forall n | n in left && LevelOf(n).Some? ensures GoodFile(left, n, w) {
      assert GoodFile(s.dir, n, w) && left[n] == s.dir[n];
    }
  }

  lemma InputsAreLevelFiles(s: System, w: Write)
    requires WriteInv(s, w) && s.compactor.Merged?
    ensures forall n | n in s.compactor.inputs :: LevelOf(n).Some?
  {
    hide LevelOf, GoodFiles, KnownIn, Issued, OnlyValue, IsSsTable, TableAt, ThreadInv, NamesApart;
    LevelFilesIssued(s, w);
    assert forall n | n in s.l0 || n in s.l1 :: n in s.l0 + s.l1 + [s.compactor.output];
  }

  /** A record in a deleted input is in a file that stays. */
  lemma DeleteKeepsRecord(s: System, gone: set<Name>, w: Write)
    requires WriteInv(s, w) && s.compactor.Merged? && gone <= SetOf(s.compactor.inputs)
    ensures OnDisk(s.dir, w.key) ==> OnDisk(s.dir - gone, w.key)
  {
    hide LevelOf, GoodFiles, KnownIn, Issued, OnlyValue, IsSsTable, TableOf, Lookup, ThreadInv, NamesApart, SetOf;
    var inputs, rest := s.compactor.inputs, s.compactor.kept + [s.compactor.output];
    if OnDisk(s.dir, w.key) {
      var n :| FileKnows(s.dir, n, w.key);
      InSetOf(inputs, n);
      if n in inputs {
        assert n in s.l0 + s.l1;
        KnownMember(s.dir, s.l0 + s.l1, w.key);
        KnownMember(s.dir, rest, w.key);
        var m :| m in rest && Lookup(TableAt(s.dir, m), w.key).Some?;
        InSetOf(inputs, m);
        LevelFilesIssued(s, w);
        TrackedAreLevelFiles(s, w);
        NothingInNoFile(s.dir, m, w.key);
        assert FileKnows(s.dir - gone, m, w.key);
      } else {
        assert FileKnows(s.dir - gone, n, w.key);
      }
    }
  }

  lemma NothingInNoFile(dir: Directory, name: Name, key: Bytes)
    requires Lookup(TableAt(dir, name), key).Some?
    ensures name in dir
  {
  }

  lemma LogPublish(s: System, w: Write)
    requires LogInv(s, w) && s.compactor.Deleted?
    ensures LogInv(AfterPublish(s), w) && (Safe(s, w.key) ==> Safe(AfterPublish(s), w.key))
  {
    hide LogInv, Safe;
    MemoryMoves(s, AfterPublish(s), w);
  }

  lemma LogFail(s: System, w: Write)
    requires LogInv(s, w) && CanFail(s)
    ensures LogInv(AfterFail(s), w) && (Safe(s, w.key) ==> Safe(AfterFail(s), w.key))
  {
    hide LogInv, Safe, NonEmpty;
    MemoryMoves(s, AfterFail(s), w);
  }

  /** A restart finds all level files, and the log gives back the rest. */
  lemma CrashKeepsBoth(s: System, l0: seq<Name>, l1: seq<Name>, w: Write)
    requires LogInv(s, w) && IsDiscovered(s.dir, [l0, l1])
    ensures WriteInv(AfterCrash(s, l0, l1), w) && LogInv(AfterCrash(s, l0, l1), w)
    ensures Safe(s, w.key) ==> Safe(AfterCrash(s, l0, l1), w.key)
  {
    hide Clean, OnlyValue, Replayed, MemOf, LogOf, LevelOf, Issued, IsDiscovered, KnownIn, GoodFile, DirOk, OnDisk;
    var after := AfterCrash(s, l0, l1);
    DiscoveredAreGood(s, l0, l1, w);
    if OnDisk(s.dir, w.key) {
      DiscoveredKnow(s, l0, l1, w.key);
    }
    assert WalFree(after) && !SomeoneLogged(after, w.key);
    NothingWrong(w);
  }

  lemma DiscoveredAreGood(s: System, l0: seq<Name>, l1: seq<Name>, w: Write)
    requires DirOk(s.dir, s.clock, w) && IsDiscovered(s.dir, [l0, l1])
    ensures AllIssued(l0, 0, s.clock) && AllIssued(l1, 1, s.clock) && GoodFiles(s.dir, l0 + l1, w)
  {
    hide LevelOf, Issued, GoodFile, IsDiscovered;
    forall i | 0 <= i < |l0| ensures Issued(l0[i], 0, s.clock) && GoodFile(s.dir, l0[i], w) {
      ListedNames(s.dir, l0, l1, l0[i]);
      if Issued(l0[i], 1, s.clock) {
        IssuedLevel(l0[i], 1, s.clock);
      }
    }
    forall i | 0 <= i < |l1| ensures Issued(l1[i], 1, s.clock) && GoodFile(s.dir, l1[i], w) {
      ListedNames(s.dir, l0, l1, l1[i]);
      if Issued(l1[i], 0, s.clock) {
        IssuedLevel(l1[i], 0, s.clock);
      }
    }
    GoodConcat(s.dir, l0, l1, w);
  }

  lemma DiscoveredKnow(s: System, l0: seq<Name>, l1: seq<Name>, key: Bytes)
    requires IsDiscovered(s.dir, [l0, l1])
    ensures OnDisk(s.dir, key) <==> KnownIn(s.dir, l0 + l1, key)
  {
    hide LevelOf, TableOf, Lookup, IsDiscovered, KnownIn;
    KnownMember(s.dir, l0 + l1, key);
    if OnDisk(s.dir, key) {
      var n :| FileKnows(s.dir, n, key);
      ListedNames(s.dir, l0, l1, n);
      OnlyTwoLevels(s.dir, l0, l1, n);
      assert n in l0 + l1;
    }
    if KnownIn(s.dir, l0 + l1, key) {
      var n :| n in l0 + l1 && Lookup(TableAt(s.dir, n), key).Some?;
      ListedNames(s.dir, l0, l1, n);
      assert FileKnows(s.dir, n, key);
    }
  }

  lemma OnlyTwoLevels(dir: Directory, l0: seq<Name>, l1: seq<Name>, name: Name)
    requires IsDiscovered(dir, [l0, l1]) && name in dir && LevelOf(name).Some?
    ensures FiledUnder(dir, name, 0) || FiledUnder(dir, name, 1)
  {
    hide LevelOf;
    DiscoveredPair(dir, l0, l1);
    assert FiledUnder(dir, name, LevelOf(name).value);
  }

  lemma LogStep(s: System, e: Event, c: Config, w: Write)
    requires WriteInv(s, w) && LogInv(s, w) && Enabled(s, e, c)
    requires OnlyWrites(e, w) && w.value != TOMBSTONE
    ensures WriteInv(Do(s, e, c), w) && LogInv(Do(s, e, c), w)
    ensures Safe(s, w.key) && Guarded(s, e, w) ==> Safe(Do(s, e, c), w.key)
  {
    hide WriteInv, LogInv, Safe, KnownIn, CanAppend, CanInsert, CanChooseName, CanSwap, CanRename, CanRegister;
    hide CanMerge, IsDiscovered;
    hide MustFlush, Applied, WithTable, WithOutput, WithoutLog, WithLogged, LevelName, Encoding, Guarded;
    if !e.Crash? {
      WriteStep(s, e, c, w);
    }
    match e
    case Append(t, entry) => LogAppend(s, t, entry, w);
    case Insert(t) => LogInsert(s, t, c, w);
    case ChooseName(t) => LogChooseName(s, t, c, w);
    case Swap(t) => LogSwap(s, t, w);
    case Scribble(target, bytes) => LogScribble(s, target, bytes, w);
    case Rename(t) => LogRename(s, t, c, w);
    case Truncate(t) => LogTruncate(s, t, w);
    case Register(t) => LogRegister(s, t, w);
    case Merge => LogMerge(s, c, w);
    case DeleteInputs => LogDelete(s, w);
    case Publish => LogPublish(s, w);
    case Fail => LogFail(s, w);
    case Crash(gone, l0, l1) =>
      InputsGone(s, gone, w);
      CrashKeepsBoth(s.(dir := s.dir - gone), l0, l1, w);
  }

  // ---------- what a restart reads ----------

  /** After a crash the record reads back exactly when the log or a file has it. */
  lemma CrashReads(s: System, l0: seq<Name>, l1: seq<Name>, w: Write)
    requires LogInv(s, w) && IsDiscovered(s.dir, [l0, l1]) && w.value != TOMBSTONE
    ensures Get(AfterCrash(s, l0, l1), w.key) ==
            if w.key in LogMem(s.dir) || OnDisk(s.dir, w.key) then Some(w.value) else None
  {
    hide Clean, Replayed, MemOf, LogOf, LevelOf, Issued, IsDiscovered, KnownIn, OnDisk, TablesAt, FirstHit, GoodFiles;
    hide DirOk;
    DiscoveredKnow(s, l0, l1, w.key);
    FilesAnswerAfter(s, l0, l1, w);
  }

  lemma FilesAnswerAfter(s: System, l0: seq<Name>, l1: seq<Name>, w: Write)
    requires LogInv(s, w) && IsDiscovered(s.dir, [l0, l1]) && w.value != TOMBSTONE
    ensures Live(FirstHit(TablesAt(s.dir, ReadOrder([l0, l1])), w.key)) ==
            if KnownIn(s.dir, l0 + l1, w.key) then Some(w.value) else None
  {
    hide Clean, OnlyValue, LogMem, IsDiscovered, KnownIn, OnDisk, TablesAt, FirstHit, GoodFiles, WriteInv, DirOk;
    DiscoveredAreGood(s, l0, l1, w);
    GoodFilesAnswer(s.dir, l0, l1, w);
  }

  // ---------- whole runs ----------

  ghost predicate OnlyWritten(events: seq<Event>, w: Write) {
    w.value != TOMBSTONE && forall i | 0 <= i < |events| :: OnlyWrites(events[i], w)
  }

  /** All swaps among the first `n` events are guarded. */
  ghost predicate AllGuarded(states: seq<System>, events: seq<Event>, w: Write, n: nat) {
    n <= |events| <= |states| && forall i | 0 <= i < n :: Guarded(states[i], events[i], w)
  }

  lemma EmptyStoreIsSafe(s: System, threads: set<Tid>, w: Write)
    requires Initial(s, threads)
    ensures LogInv(s, w) && Safe(s, w.key)
  {
    hide LevelOf;
    WalIsSkipped();
    assert LogOf(s.dir) == [] && Replayed([]) == [];
  }

  lemma {:induction false} RunIsSafe(states: seq<System>, events: seq<Event>, c: Config, threads: set<Tid>, w: Write,
                                     n: nat)
    requires IsRun(states, events, c) && Initial(states[0], threads) && OnlyWritten(events, w)
    requires AllGuarded(states, events, w, n)
    ensures WriteInv(states[n], w) && LogInv(states[n], w) && Safe(states[n], w.key)
  {
    hide WriteInv, LogInv, Safe, Enabled, Do, OnlyWrites, Guarded, Initial;
    if n == 0 {
      WriteInitial(states[0], threads, w);
      EmptyStoreIsSafe(states[0], threads, w);
    } else {
      RunIsSafe(states, events, c, threads, w, n - 1);
      LogStep(states[n - 1], events[n - 1], c, w);
    }
  }

  /** Crash durability of many writers: while every memtable swap is guarded, an appended record of a
      write-once key reads back after a crash in any state, also between two deletions of a compaction, and
      whatever crashes and failed compactions came before. */
  lemma AppendedSurvives(states: seq<System>, events: seq<Event>, c: Config, threads: set<Tid>, w: Write, n: nat,
                         gone: set<Name>, l0: seq<Name>, l1: seq<Name>)
    requires IsRun(states, events, c) && Initial(states[0], threads) && OnlyWritten(events, w)
    requires n < |states| && AllGuarded(states, events, w, n)
    requires MayBeGone(states[n], gone) && IsDiscovered(states[n].dir - gone, [l0, l1])
    ensures w.key in MemOf(Appended(events[..n])) ==>
              Get(AfterCrash(states[n].(dir := states[n].dir - gone), l0, l1), w.key) == Some(w.value)
  {
    hide Initial, LogInv, WriteInv, OnDisk, LogMem, IsDiscovered, Get, Covered, MemOf, AllGuarded, Enabled, Do;
    hide MayBeGone;
    RunIsSafe(states, events, c, threads, w, n);
    LoggedIsAppended(states, events, c, n, threads);
    InputsGone(states[n], gone, w);
    CrashReads(states[n].(dir := states[n].dir - gone), l0, l1, w);
  }

  // ---------- an unguarded swap ----------

  /** The flush of `t` holds the log lock, and neither its table nor a file has the key. */
  ghost predicate Doomed(s: System, t: Tid, key: Bytes) {
    PcOf(s, t) != Idle && HoldsWal(PcOf(s, t)) && key !in PcOf(s, t).table && !OnDisk(s.dir, key)
  }

  /** No step before that truncation brings the key to a file. */
  lemma DoomedStep(s: System, e: Event, c: Config, w: Write, t: Tid)
    requires WriteInv(s, w) && LogInv(s, w) && Enabled(s, e, c) && w.value != TOMBSTONE
    requires Doomed(s, t, w.key) && !e.Crash? && e != Truncate(t)
    ensures Doomed(Do(s, e, c), t, w.key)
  {
    hide WriteInv, LogInv, OnDisk, Enabled, Do;
    HolderStays(s, e, c, w, t);
    NoNewRecord(s, e, c, w, t);
  }

  lemma HolderStays(s: System, e: Event, c: Config, w: Write, t: Tid)
    requires LogInv(s, w) && Enabled(s, e, c) && !e.Crash? && e != Truncate(t)
    requires HoldsWal(PcOf(s, t))
    ensures HoldsWal(PcOf(Do(s, e, c), t)) && PcOf(Do(s, e, c), t).table == PcOf(s, t).table
    ensures !e.Append? && !e.Swap? && !e.Truncate?
  {
    hide OnDisk, Clean, OnlyValue, LogMem, DirOk, NamesUnused, AppendedFirst, CanMerge, IsDiscovered;
    hide MustFlush, Applied, WithTable, WithOutput, WithoutLog, WithLogged, LevelName, Encoding, Tick, FileFits;
    assert t in s.clients && !WalFree(s);
  }

  lemma NoNewRecord(s: System, e: Event, c: Config, w: Write, t: Tid)
    requires WriteInv(s, w) && LogInv(s, w) && Enabled(s, e, c) && w.value != TOMBSTONE
    requires Doomed(s, t, w.key) && !e.Crash? && !e.Append? && !e.Truncate?
    ensures !OnDisk(Do(s, e, c).dir, w.key)
  {
    hide WriteInv, LogInv, OnDisk, CanAppend, CanInsert, CanChooseName, CanSwap, CanRename, CanRegister, CanMerge;
    hide LevelOf;
    hide MustFlush, Applied, WithTable, WithOutput, WithoutLog, WithLogged, LevelName, Encoding, TmpName;
    match e
    case Scribble(target, bytes) => ScribbleAddsNothing(s, target, bytes, w);
    case Rename(u) => RenameAddsNothing(s, u, c, w, t);
    case Merge => MergeAddsNothing(s, c, w);
    case DeleteInputs => FilesStay(AfterDelete(s).dir, s.dir, w.key);
    case _ =>
  }

  lemma ScribbleAddsNothing(s: System, target: Name, bytes: Bytes, w: Write)
    requires LogInv(s, w) && !OnDisk(s.dir, w.key)
    ensures !OnDisk(AfterScribble(s, target, bytes).dir, w.key)
  {
    hide OnDisk, Clean, OnlyValue, LogMem, DirOk, NamesUnused, AppendedFirst, LevelOf, TmpName;
    TmpAndWalAreSkipped(target);
    SkippedFacts(s.dir, AfterScribble(s, target, bytes).dir, TmpName(target), s.clock, w);
  }

  lemma OneNewFile(a: Directory, b: Directory, x: Name, key: Bytes)
    requires forall n | n in b && n != x :: n in a && a[n] == b[n]
    requires Lookup(TableAt(b, x), key).None?
    ensures OnDisk(b, key) ==> OnDisk(a, key)
  {
    hide TableOf, Lookup, LevelOf;
    if OnDisk(b, key) {
      var n :| FileKnows(b, n, key);
      assert FileKnows(a, n, key);
    }
  }

  /** Only the flush that holds the log lock reveals a file, and its table lacks the key. */
  lemma RenameAddsNothing(s: System, u: Tid, c: Config, w: Write, t: Tid)
    requires WriteInv(s, w) && LogInv(s, w) && CanRename(s, u, c) && Doomed(s, t, w.key) && w.value != TOMBSTONE
    ensures !OnDisk(AfterRename(s, u, c).dir, w.key)
  {
    hide WriteInv, Clean, OnlyValue, LogMem, DirOk, NamesUnused, AppendedFirst, LevelOf, TmpName, TableOf, Lookup;
    hide Entries;
    hide FileFits, FileBytes, Sorted, OnDisk;
    assert u == t;
    var name, table, after := s.clients[t].name, s.clients[t].table, AfterRename(s, t, c);
    WriteRename(s, t, c, w);
    RenamedTable(after, t, w);
    EntriesAreTheMap(table);
    assert Lookup(TableAt(after.dir, name), w.key) == Found(table, w.key) == None;
    OneNewFile(s.dir, after.dir, name, w.key);
  }

  lemma RenamedTable(s: System, t: Tid, w: Write)
    requires WriteInv(s, w) && PcOf(s, t).Renamed?
    ensures TableAt(s.dir, s.clients[t].name) == Entries(s.clients[t].table)
  {
    hide Entries, TableAt, IsSsTable, Issued, GoodFiles, KnownIn;
    assert ThreadInv(s, t, w);
  }

  /** A merge of files without the key is a file without the key. */
  lemma MergeAddsNothing(s: System, c: Config, w: Write)
    requires WriteInv(s, w) && CanMerge(s, c) && !OnDisk(s.dir, w.key) && w.value != TOMBSTONE
    ensures !OnDisk(AfterMerge(s, c).dir, w.key)
  {
    hide KnownIn, GoodFiles, TableOf, TmpName, LevelOf, FileBytes, FileFits, Lookup, Sorted, LevelName, NonEmpty;
    hide Compacted;
    hide Inputs, L1Part, TablesAt, TotalRecords, WriteInv, Decimal, OnDisk;
    var inputs, output, after := Inputs(s), LevelName(1, s.clock), AfterMerge(s, c);
    var m, shape := Compacted(TablesAt(s.dir, inputs)), c.sizing(TotalRecords(TablesAt(s.dir, inputs)));
    RestingFilesAreGood(s, w);
    InputsAndKept(s);
    assert forall n | n in inputs :: n in s.l0 + s.l1;
    GoodMember(s.dir, s.l0 + s.l1, inputs, w);
    MergedIsGood(s.dir, inputs, w);
    OutputWritten(s, inputs, m, shape, w);
    TrackedUnknown(s, inputs, w);
    OneNewFile(s.dir, after.dir, output, w.key);
  }

  lemma TrackedUnknown(s: System, names: seq<Name>, w: Write)
    requires WriteInv(s, w) && s.compactor == Resting && forall n | n in names :: n in s.l0 + s.l1
    ensures KnownIn(s.dir, names, w.key) ==> OnDisk(s.dir, w.key)
  {
    hide WriteInv, KnownIn, TableOf, Lookup, LevelOf;
    KnownMember(s.dir, names, w.key);
    LevelFilesIssued(s, w);
    if KnownIn(s.dir, names, w.key) {
      var n :| n in names && Lookup(TableAt(s.dir, n), w.key).Some?;
      NothingInNoFile(s.dir, n, w.key);
      assert FileKnows(s.dir, n, w.key);
    }
  }

  /** From the swap of a flush to the truncation that ends it, without a crash. */
  ghost predicate IsFlushSpan(events: seq<Event>, i: nat, j: nat, t: Tid) {
    && i < j < |events| && events[i] == Swap(t) && events[j] == Truncate(t)
    && forall k | i < k < j :: !events[k].Crash? && events[k] != Truncate(t)
  }

  lemma SwapStarts(s: System, c: Config, t: Tid, w: Write)
    requires LogInv(s, w) && Enabled(s, Swap(t), c)
    ensures HoldsWal(PcOf(Do(s, Swap(t), c), t))
    ensures !Guarded(s, Swap(t), w) ==> Doomed(Do(s, Swap(t), c), t, w.key) && w.key in s.logged
  {
    hide OnDisk, Clean, OnlyValue, LogMem, DirOk, NamesUnused, OneHolder;
  }

  /** What holds in every state of the span. */
  lemma {:induction false} SpanState(states: seq<System>, events: seq<Event>, c: Config, threads: set<Tid>, w: Write,
                                     i: nat, j: nat, t: Tid, k: nat)
    requires IsRun(states, events, c) && Initial(states[0], threads) && OnlyWritten(events, w)
    requires IsFlushSpan(events, i, j, t) && AllGuarded(states, events, w, i) && i < k <= j
    ensures WriteInv(states[k], w) && LogInv(states[k], w) && HoldsWal(PcOf(states[k], t))
    ensures Guarded(states[i], events[i], w) ==> Safe(states[k], w.key)
    ensures !Guarded(states[i], events[i], w) ==> Doomed(states[k], t, w.key)
    decreases k
  {
    hide WriteInv, LogInv, Safe, Do, OnlyWrites, Guarded, Initial, Doomed, AllGuarded, HoldsWal, PcOf;
    hide CanAppend, CanInsert, CanChooseName, CanSwap, CanRename, CanRegister, CanMerge, IsDiscovered;
    if k == i + 1 {
      RunIsSafe(states, events, c, threads, w, i);
      LogStep(states[i], events[i], c, w);
      SwapStarts(states[i], c, t, w);
    } else {
      SpanState(states, events, c, threads, w, i, j, t, k - 1);
      var s, e := states[k - 1], events[k - 1];
      HolderStays(s, e, c, w, t);
      assert Guarded(s, e, w) by { NotASwap(s, e, w); }
      LogStep(s, e, c, w);
      if Doomed(s, t, w.key) {
        DoomedStep(s, e, c, w, t);
      }
    }
  }

  lemma NotASwap(s: System, e: Event, w: Write)
    requires !e.Swap?
    ensures Guarded(s, e, w)
  {
  }

  lemma {:induction false} LoggedGrows(states: seq<System>, events: seq<Event>, c: Config, key: Bytes, i: nat, j: nat)
    requires IsRun(states, events, c) && i <= j < |states|
    requires key in states[i].logged
    ensures key in states[j].logged
    decreases j - i
  {
    hide Enabled, Do;
    if i < j {
      LoggedGrows(states, events, c, key, i, j - 1);
      LoggedStep(states[j - 1], events[j - 1], c);
    }
  }

  /** After the truncation, a record the flush and the files lack is gone. */
  lemma TruncateLoses(s: System, t: Tid, l0: seq<Name>, l1: seq<Name>, w: Write)
    requires LogInv(s, w) && Doomed(s, t, w.key) && PcOf(s, t).Renamed? && w.value != TOMBSTONE
    requires LogInv(AfterTruncate(s, t), w) && IsDiscovered(AfterTruncate(s, t).dir, [l0, l1])
    ensures Get(AfterCrash(AfterTruncate(s, t), l0, l1), w.key) == None
  {
    hide OnDisk, Clean, OnlyValue, LogOf, Replayed, MemOf, DirOk, NamesUnused, OneHolder, AppendedFirst, IsDiscovered;
    hide Get;
    hide WithoutLog;
    LogAfterTruncate(s.dir);
    LogIsSkipped(s.dir, Delete([]));
    SkippedFacts(s.dir, WithoutLog(s.dir), WAL_NAME, s.clock, w);
    CrashReads(AfterTruncate(s, t), l0, l1, w);
  }

  /** The swap decides. Take the first flush whose swap may be unguarded, up to its truncation: a record
      appended before reads back after a crash then if and only if the swap was guarded. It does not matter
      whether the writer inserts it before the truncation or after. */
  lemma SwapDecides(states: seq<System>, events: seq<Event>, c: Config, threads: set<Tid>, w: Write,
                    i: nat, j: nat, t: Tid, l0: seq<Name>, l1: seq<Name>)
    requires IsRun(states, events, c) && Initial(states[0], threads) && OnlyWritten(events, w)
    requires IsFlushSpan(events, i, j, t) && AllGuarded(states, events, w, i)
    requires IsDiscovered(states[j + 1].dir, [l0, l1])
    ensures w.key in MemOf(Appended(events[..i])) ==>
              (Get(AfterCrash(states[j + 1], l0, l1), w.key) == Some(w.value) <==> Guarded(states[i], events[i], w))
    ensures !Guarded(states[i], events[i], w) ==>
              w.key in MemOf(Appended(events[..i])) && Get(AfterCrash(states[j + 1], l0, l1), w.key) == None
  {
    hide WriteInv, LogInv, Safe, OnlyWrites, Guarded, Initial, Doomed, AllGuarded, Get, MemOf, IsDiscovered;
    hide AfterTruncate;
    hide CanAppend, CanInsert, CanChooseName, CanSwap, CanRename, CanRegister, CanMerge, OnDisk, LogMem;
    var s, after := states[j], states[j + 1];
    SpanState(states, events, c, threads, w, i, j, t, j);
    NotASwap(s, events[j], w);
    LogStep(s, events[j], c, w);
    LoggedIsAppended(states, events, c, i, threads);
    assert after == AfterTruncate(s, t);
    if Guarded(states[i], events[i], w) {
      if w.key in states[i].logged {
        LoggedGrows(states, events, c, w.key, i, j + 1);
        SafeReads(after, l0, l1, w);
      }
    } else {
      RunIsSafe(states, events, c, threads, w, i);
      SwapStarts(states[i], c, t, w);
      TruncateLoses(s, t, l0, l1, w);
    }
  }

  lemma SafeReads(s: System, l0: seq<Name>, l1: seq<Name>, w: Write)
    requires LogInv(s, w) && Safe(s, w.key) && IsDiscovered(s.dir, [l0, l1]) && w.value != TOMBSTONE &&
             w.key in s.logged
    ensures Get(AfterCrash(s, l0, l1), w.key) == Some(w.value)
  {
    hide LogInv, IsDiscovered, Get, OnDisk, LogMem, Covered;
    CrashReads(s, l0, l1, w);
  }
}
