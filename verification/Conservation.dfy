/** Many client threads and the compaction thread: a key that is only ever written with one value is
    never lost, and a read misses it only while it sits in a flush that is not yet registered. */
module Conservation {
  import opened Wrappers
  import opened Bytes
  import opened Names
  import opened Storage
  import opened Tables
  import opened Bloom
  import opened SsTableFormat
  import opened WalFormat
  import opened MemTable
  import opened Compaction
  import opened LevelTables
  import opened Levels
  import opened Wal
  import opened Stores
  import opened Machine
  import opened Durable

  /** The key and the one value it is ever written with. */
  datatype Write = Write(key: Bytes, value: Bytes)

  // ---------- where the record can be ----------

  /** The table of a flush that has left the memtable and is not yet registered. */
  function InFlight(pc: Pc): KeyValues {
    if pc.Swapped? || pc.Renamed? || pc.Truncated? then pc.table else map[]
  }

  /** The files a reader would consult once it gets the levels lock. */
  function Tracked(s: System): seq<Name> {
    if s.compactor.Deleted? then s.compactor.kept + [s.compactor.output] else s.l0 + s.l1
  }

  /** All level files the compaction thread still relies on. */
  function LevelFiles(s: System): seq<Name> {
    if s.compactor.Merged? then s.l0 + s.l1 + [s.compactor.output] else Tracked(s)
  }

  ghost predicate KnownIn(dir: Directory, names: seq<Name>, key: Bytes) {
    exists i | 0 <= i < |names| :: Lookup(TableAt(dir, names[i]), key).Some?
  }

  ghost predicate SomeFlightHas(s: System, key: Bytes) {
    exists t | t in s.clients :: key in InFlight(s.clients[t])
  }

  /** An inserted record is in the memtable, in a flush in flight, or in a tracked file. */
  ghost predicate Present(s: System, key: Bytes) {
    key in s.mem || SomeFlightHas(s, key) || KnownIn(s.dir, Tracked(s), key)
  }

  // ---------- the invariant ----------

  predicate Issued(name: Name, level: nat, clock: nat) {
    exists ts: nat :: ts < clock && name == LevelName(level, ts)
  }

  predicate Holds(pc: Pc, name: Name) {
    (pc.Named? || pc.Swapped? || pc.Renamed? || pc.Truncated?) && pc.name == name
  }

  predicate OnlyValue(m: KeyValues, w: Write) {
    w.key in m ==> m[w.key] == w.value
  }

  /** A finished file in which the key, if present, has its value. */
  ghost predicate GoodFile(dir: Directory, name: Name, w: Write) {
    IsSsTable(dir, name) && (Lookup(TableAt(dir, name), w.key).Some? ==>
        Lookup(TableAt(dir, name), w.key) == Some(w.value))
  }

  ghost predicate GoodFiles(dir: Directory, names: seq<Name>, w: Write) {
    forall i | 0 <= i < |names| :: GoodFile(dir, names[i], w)
  }

  ghost predicate ThreadInv(s: System, t: Tid, w: Write)
    requires t in s.clients
  {
    var pc := s.clients[t];
    && (pc.Logged? && pc.entry.key == w.key ==> pc.entry == Put(w.key, w.value))
    && OnlyValue(InFlight(pc), w)
    && (pc.Renamed? || pc.Truncated? ==> IsSsTable(s.dir, pc.name) && TableAt(s.dir, pc.name) == Entries(pc.table))
    && (forall name | Holds(pc, name) :: Issued(name, 0, s.clock) && name !in s.l0)
  }

  /** No two threads hold the same file name. */
  ghost predicate NamesApart(s: System) {
    forall t, u, name | t in s.clients && u in s.clients && Holds(s.clients[t], name) &&
        Holds(s.clients[u], name) :: t == u
  }

  ghost predicate AllIssued(names: seq<Name>, level: nat, clock: nat) {
    forall i | 0 <= i < |names| :: Issued(names[i], level, clock)
  }

  ghost predicate CompactorOk(s: System, w: Write) {
    match s.compactor
    case Resting => true
    case Merged(inputs, kept, output) =>
      && Issued(output, 1, s.clock) && output !in inputs
      && (forall n | n in kept :: n in s.l1 && n !in inputs)
      && (forall n | n in inputs :: n in s.l0 || n in s.l1)
      && (KnownIn(s.dir, s.l0 + s.l1, w.key) ==> KnownIn(s.dir, kept + [output], w.key))
    case Deleted(kept, output) => AllIssued(kept + [output], 1, s.clock)
  }

  ghost predicate WriteInv(s: System, w: Write) {
    && (forall t | t in s.clients :: ThreadInv(s, t, w))
    && NamesApart(s)
    && AllIssued(s.l0, 0, s.clock) && AllIssued(s.l1, 1, s.clock)
    && GoodFiles(s.dir, LevelFiles(s), w)
    && CompactorOk(s, w)
    && OnlyValue(s.mem, w)
  }

  ghost predicate Conserved(s: System, w: Write) {
    w.key in s.inserted ==> Present(s, w.key)
  }

  /** The event writes nothing else under the key. */
  predicate OnlyWrites(e: Event, w: Write) {
    e.Append? && e.entry.key == w.key ==> e.entry == Put(w.key, w.value)
  }

  /** The event writes nothing else under the key, and is neither a crash nor a failing compaction. */
  predicate Respects(e: Event, w: Write) {
    !e.Crash? && !e.Fail? && OnlyWrites(e, w)
  }

  // ---------- names and files ----------

  lemma IssuedLevel(name: Name, level: nat, clock: nat)
    requires Issued(name, level, clock) && level < 2
    ensures LevelOf(name) == Some(level)
  {
    hide LevelOf, LevelName;
    var ts: nat :| ts < clock && name == LevelName(level, ts);
    LevelOfLevelName(level, ts);
  }

  lemma IssuedLater(name: Name, level: nat, clock: nat, later: nat)
    requires Issued(name, level, clock) && clock <= later
    ensures Issued(name, level, later)
  {
    hide LevelName;
  }

  lemma AllIssuedLater(names: seq<Name>, level: nat, clock: nat, later: nat)
    requires AllIssued(names, level, clock) && clock <= later
    ensures AllIssued(names, level, later)
  {
    hide Issued;
    forall i | 0 <= i < |names| ensures Issued(names[i], level, later) {
      IssuedLater(names[i], level, clock, later);
    }
  }

  /** The name of this instant is new. */
  lemma FreshName(name: Name, level: nat, clock: nat)
    requires Issued(name, level, clock)
    ensures name != LevelName(level, clock)
  {
    hide LevelName;
    var ts: nat :| ts < clock && name == LevelName(level, ts);
    if name == LevelName(level, clock) {
      LevelNameInjective(level, ts, clock);
    }
  }

  lemma KnownConcat(dir: Directory, a: seq<Name>, b: seq<Name>, key: Bytes)
    ensures KnownIn(dir, a + b, key) <==> KnownIn(dir, a, key) || KnownIn(dir, b, key)
  {
    hide TableAt, Lookup;
    if KnownIn(dir, a, key) {
      var i :| 0 <= i < |a| && Lookup(TableAt(dir, a[i]), key).Some?;
      assert (a + b)[i] == a[i];
    }
    if KnownIn(dir, b, key) {
      var i :| 0 <= i < |b| && Lookup(TableAt(dir, b[i]), key).Some?;
      assert (a + b)[|a| + i] == b[i];
    }
  }

  lemma KnownOne(dir: Directory, name: Name, key: Bytes)
    ensures KnownIn(dir, [name], key) <==> Lookup(TableAt(dir, name), key).Some?
  {
    hide TableAt, Lookup;
    assert [name][0] == name;
  }

  lemma GoodConcat(dir: Directory, a: seq<Name>, b: seq<Name>, w: Write)
    ensures GoodFiles(dir, a + b, w) <==> GoodFiles(dir, a, w) && GoodFiles(dir, b, w)
  {
    hide GoodFile;
    assert forall i | 0 <= i < |a| :: (a + b)[i] == a[i];
    assert forall i | 0 <= i < |b| :: (a + b)[|a| + i] == b[i];
  }

  lemma GoodMember(dir: Directory, names: seq<Name>, part: seq<Name>, w: Write)
    requires GoodFiles(dir, names, w) && forall n | n in part :: n in names
    ensures GoodFiles(dir, part, w)
  {
    hide GoodFile;
    forall i | 0 <= i < |part| ensures GoodFile(dir, part[i], w) {
      assert part[i] in names;
    }
  }

  /** Where the bytes are the same, so are the facts about the files. */
  lemma SameFacts(a: Directory, b: Directory, names: seq<Name>, w: Write)
    requires GoodFiles(a, names, w) && forall n | n in names && n in a :: n in b && b[n] == a[n]
    ensures GoodFiles(b, names, w) && (KnownIn(a, names, w.key) ==> KnownIn(b, names, w.key))
  {
    hide TableOf, Lookup, IsFileOf;
    forall i | 0 <= i < |names| ensures GoodFile(b, names[i], w) && TableAt(b, names[i]) == TableAt(a, names[i]) {
      assert GoodFile(a, names[i], w) && names[i] in names;
    }
  }

  // ---------- changes of the directory ----------

  /** A change that leaves all level files and all unregistered flush files alone. */
  ghost predicate Undisturbed(s: System, dir: Directory) {
    && (forall n | n in LevelFiles(s) && n in s.dir :: n in dir && dir[n] == s.dir[n])
    && (forall t | t in s.clients && (s.clients[t].Renamed? || s.clients[t].Truncated?) && s.clients[t].name in s.dir ::
          s.clients[t].name in dir && dir[s.clients[t].name] == s.dir[s.clients[t].name])
  }

  lemma TrackedAreLevelFiles(s: System, w: Write)
    requires CompactorOk(s, w)
    ensures forall n | n in Tracked(s) :: n in LevelFiles(s)
    ensures s.compactor.Merged? ==> forall n | n in s.compactor.kept + [s.compactor.output] :: n in LevelFiles(s)
  {
    hide KnownIn, Issued;
    assert s.compactor.Merged? ==> forall n | n in s.l0 + s.l1 :: n in s.l0 + s.l1 + [s.compactor.output];
    assert forall n :: n in s.l0 + s.l1 <==> n in s.l0 || n in s.l1;
  }

  lemma DirectoryChanges(s: System, dir: Directory, w: Write)
    requires WriteInv(s, w) && Undisturbed(s, dir)
    ensures WriteInv(s.(dir := dir), w) && (Conserved(s, w) ==> Conserved(s.(dir := dir), w))
    ensures KnownIn(s.dir, Tracked(s), w.key) ==> KnownIn(dir, Tracked(s), w.key)
  {
    hide TableOf, Lookup, IsFileOf, GoodFiles, KnownIn, Issued, Entries, OnlyValue;
    var after := s.(dir := dir);
    TrackedAreLevelFiles(s, w);
    SameFacts(s.dir, dir, LevelFiles(s), w);
    GoodMember(s.dir, LevelFiles(s), Tracked(s), w);
    SameFacts(s.dir, dir, Tracked(s), w);
    if s.compactor.Merged? {
      var rest := s.compactor.kept + [s.compactor.output];
      GoodMember(s.dir, LevelFiles(s), rest, w);
      SameFacts(s.dir, dir, rest, w);
      KnownStays(s, dir, w);
    }
    forall t | t in after.clients ensures ThreadInv(after, t, w) {
      assert ThreadInv(s, t, w);
    }
  }

  lemma KnownStays(s: System, dir: Directory, w: Write)
    requires s.compactor.Merged? && GoodFiles(s.dir, LevelFiles(s), w) && Undisturbed(s, dir)
    ensures KnownIn(dir, s.l0 + s.l1, w.key) ==> KnownIn(s.dir, s.l0 + s.l1, w.key)
  {
    hide TableOf, Lookup;
    var names := s.l0 + s.l1;
    if KnownIn(dir, names, w.key) {
      var i :| 0 <= i < |names| && Lookup(TableAt(dir, names[i]), w.key).Some?;
      assert LevelFiles(s)[i] == names[i] && names[i] in LevelFiles(s);
      assert GoodFile(s.dir, LevelFiles(s)[i], w);
    }
  }

  /** A name a directory scan skips disturbs nothing. */
  lemma SkippedIsUndisturbed(s: System, x: Name, bytes: Bytes, w: Write)
    requires WriteInv(s, w) && LevelOf(x).None?
    ensures Undisturbed(s, s.dir[x := bytes]) && Undisturbed(s, s.dir - {x})
  {
    hide LevelOf, GoodFiles, KnownIn, Issued, Entries, OnlyValue, IsSsTable, TableAt;
    LevelFilesIssued(s, w);
    forall t | t in s.clients && (s.clients[t].Renamed? || s.clients[t].Truncated?) ensures s.clients[t].name != x {
      assert ThreadInv(s, t, w) && Holds(s.clients[t], s.clients[t].name);
      IssuedLevel(s.clients[t].name, 0, s.clock);
    }
  }

  lemma LevelFilesIssued(s: System, w: Write)
    requires WriteInv(s, w)
    ensures forall n | n in LevelFiles(s) :: LevelOf(n).Some? && (Issued(n, 0, s.clock) || Issued(n, 1, s.clock))
    ensures forall n | n in LevelFiles(s) && Issued(n, 0, s.clock) :: n in s.l0
  {
    hide LevelOf, GoodFiles, KnownIn, Issued, Entries, OnlyValue, IsSsTable, TableAt;
    forall n | n in LevelFiles(s)
      ensures LevelOf(n).Some? && (Issued(n, 0, s.clock) || Issued(n, 1, s.clock))
      ensures Issued(n, 0, s.clock) ==> n in s.l0
    {
      if n in s.l0 && !s.compactor.Deleted? {
        IssuedLevel(n, 0, s.clock);
      } else {
        assert Issued(n, 1, s.clock) by { LevelOneIssued(s, w, n); }
        IssuedLevel(n, 1, s.clock);
        if Issued(n, 0, s.clock) {
          IssuedLevel(n, 0, s.clock);
        }
      }
    }
  }

  lemma LevelOneIssued(s: System, w: Write, n: Name)
    requires WriteInv(s, w) && n in LevelFiles(s) && (n !in s.l0 || s.compactor.Deleted?)
    ensures Issued(n, 1, s.clock)
  {
    hide GoodFiles, KnownIn, Issued, Entries, OnlyValue, IsSsTable, TableAt;
    if s.compactor.Deleted? {
      assert n in s.compactor.kept + [s.compactor.output];
    } else {
      assert n in s.l1 || (s.compactor.Merged? && n == s.compactor.output);
    }
  }

  // ---------- every step keeps the invariant ----------

  /** One thread moves on without touching files or level lists. */
  lemma ThreadMoves(s: System, t: Tid, pc: Pc, w: Write)
    requires WriteInv(s, w) && t in s.clients
    requires ThreadInv(s.(clients := s.clients[t := pc]), t, w)
    requires forall name | Holds(pc, name) :: Holds(s.clients[t], name) || !NameTaken(s, name)
    requires forall key | key in InFlight(s.clients[t]) :: key in InFlight(pc)
    ensures WriteInv(s.(clients := s.clients[t := pc]), w) &&
            (Conserved(s, w) ==> Conserved(s.(clients := s.clients[t := pc]), w))
  {
    hide GoodFiles, KnownIn, Issued, Entries, OnlyValue, IsSsTable, TableAt;
    var after := s.(clients := s.clients[t := pc]);
    forall u | u in after.clients ensures ThreadInv(after, u, w) {
      assert u != t ==> ThreadInv(s, u, w);
    }
    if SomeFlightHas(s, w.key) {
      var u :| u in s.clients && w.key in InFlight(s.clients[u]);
      assert w.key in InFlight(after.clients[u]);
    }
  }

  ghost predicate NameTaken(s: System, name: Name) {
    exists u | u in s.clients :: Holds(s.clients[u], name)
  }

  lemma WriteAppend(s: System, t: Tid, entry: WalEntry, w: Write)
    requires WriteInv(s, w) && CanAppend(s, t, entry) && OnlyWrites(Append(t, entry), w)
    ensures WriteInv(AfterAppend(s, t, entry), w) && (Conserved(s, w) ==> Conserved(AfterAppend(s, t, entry), w))
    ensures KnownIn(s.dir, Tracked(s), w.key) ==> KnownIn(AfterAppend(s, t, entry).dir, Tracked(s), w.key)
  {
    hide WriteInv, Conserved, Undisturbed, KnownIn, IsSsTable, Entries, TableAt, Issued, Encoding, LogOf, Applied;
    WalIsSkipped();
    var dir := WithLogged(s.dir, entry);
    SkippedIsUndisturbed(s, WAL_NAME, dir[WAL_NAME], w);
    DirectoryChanges(s, dir, w);
    ThreadMoves(s.(dir := dir), t, Logged(entry), w);
    HistoryIgnored(s.(dir := dir, clients := s.clients[t := Logged(entry)]), AfterAppend(s, t, entry).logged, w);
  }

  lemma HistoryIgnored(s: System, logged: KeyValues, w: Write)
    requires WriteInv(s, w)
    ensures WriteInv(s.(logged := logged), w) && (Conserved(s, w) ==> Conserved(s.(logged := logged), w))
  {
    hide GoodFiles, KnownIn, Issued, Entries, OnlyValue, IsSsTable, TableAt;
    var after := s.(logged := logged);
    forall u | u in after.clients ensures ThreadInv(after, u, w) {
      assert ThreadInv(s, u, w);
    }
    if SomeFlightHas(s, w.key) {
      var u :| u in s.clients && w.key in InFlight(s.clients[u]);
      assert w.key in InFlight(after.clients[u]);
    }
  }

  lemma WriteInsert(s: System, t: Tid, c: Config, w: Write)
    requires WriteInv(s, w) && CanInsert(s, t)
    ensures WriteInv(AfterInsert(s, t, c), w) && (Conserved(s, w) ==> Conserved(AfterInsert(s, t, c), w))
  {
    hide GoodFiles, KnownIn, Issued, Entries, IsSsTable, TableAt, MustFlush;
    var after := AfterInsert(s, t, c);
    var pc := after.clients[t];
    assert ThreadInv(s, t, w);
    ThreadMoves(s, t, pc, w);
    var moved := s.(clients := s.clients[t := pc]);
    forall u | u in after.clients ensures ThreadInv(after, u, w) {
      assert ThreadInv(moved, u, w);
    }
    if SomeFlightHas(moved, w.key) {
      var u :| u in moved.clients && w.key in InFlight(moved.clients[u]);
      assert w.key in InFlight(after.clients[u]);
    }
  }

  lemma TimePasses(s: System, later: nat, w: Write)
    requires WriteInv(s, w) && s.clock <= later
    ensures WriteInv(s.(clock := later), w) && (Conserved(s, w) ==> Conserved(s.(clock := later), w))
  {
    hide GoodFiles, KnownIn, Issued, Entries, OnlyValue, IsSsTable, TableAt;
    var after := s.(clock := later);
    forall u | u in after.clients ensures ThreadInv(after, u, w) {
      assert ThreadInv(s, u, w);
      forall name | Holds(s.clients[u], name) ensures Issued(name, 0, later) {
        IssuedLater(name, 0, s.clock, later);
      }
    }
    AllIssuedLater(s.l0, 0, s.clock, later);
    AllIssuedLater(s.l1, 1, s.clock, later);
    match s.compactor {
      case Resting =>
      case Merged(_, _, output) => IssuedLater(output, 1, s.clock, later);
      case Deleted(kept, output) => AllIssuedLater(kept + [output], 1, s.clock, later);
    }
    if SomeFlightHas(s, w.key) {
      var u :| u in s.clients && w.key in InFlight(s.clients[u]);
      assert w.key in InFlight(after.clients[u]);
    }
  }

  lemma WriteChooseName(s: System, t: Tid, c: Config, w: Write)
    requires WriteInv(s, w) && CanChooseName(s, t, c)
    ensures WriteInv(AfterChooseName(s, t), w) && (Conserved(s, w) ==> Conserved(AfterChooseName(s, t), w))
  {
    hide GoodFiles, KnownIn, Issued, Entries, IsSsTable, TableAt, LevelName, CompactorOk, Decimal;
    var name := LevelName(0, s.clock);
    var timed := s.(clock := s.clock + 1);
    TimePasses(s, s.clock + 1, w);
    assert Issued(name, 0, timed.clock) by { JustIssued(0, s.clock); }
    forall i | 0 <= i < |s.l0| ensures s.l0[i] != name {
      FreshName(s.l0[i], 0, s.clock);
    }
    forall u | u in s.clients && Holds(s.clients[u], name) ensures false {
      assert ThreadInv(s, u, w);
      FreshName(name, 0, s.clock);
    }
    assert !NameTaken(timed, name);
    ThreadMoves(timed, t, Named(name), w);
  }

  lemma JustIssued(level: nat, clock: nat)
    ensures Issued(LevelName(level, clock), level, clock + 1)
  {
    hide LevelName;
  }

  lemma WriteSwap(s: System, t: Tid, w: Write)
    requires WriteInv(s, w) && CanSwap(s, t)
    ensures WriteInv(AfterSwap(s, t), w) && (Conserved(s, w) ==> Conserved(AfterSwap(s, t), w))
  {
    hide GoodFiles, KnownIn, Issued, Entries, OnlyValue, IsSsTable, TableAt;
    var pc := Swapped(s.clients[t].name, s.mem);
    assert ThreadInv(s, t, w);
    ThreadMoves(s, t, pc, w);
    var moved, after := s.(clients := s.clients[t := pc]), AfterSwap(s, t);
    forall u | u in after.clients ensures ThreadInv(after, u, w) {
      assert ThreadInv(moved, u, w);
    }
    assert OnlyValue(map[], w) by { NothingWrong(w); }
    if w.key in s.mem {
      assert w.key in InFlight(after.clients[t]);
    }
    if SomeFlightHas(moved, w.key) {
      var u :| u in moved.clients && w.key in InFlight(moved.clients[u]);
      assert w.key in InFlight(after.clients[u]);
    }
  }

  lemma NothingWrong(w: Write)
    ensures OnlyValue(map[], w)
  {
  }

  lemma WriteScribble(s: System, target: Name, bytes: Bytes, w: Write)
    requires WriteInv(s, w)
    ensures WriteInv(AfterScribble(s, target, bytes), w) &&
            (Conserved(s, w) ==> Conserved(AfterScribble(s, target, bytes), w))
    ensures KnownIn(s.dir, Tracked(s), w.key) ==> KnownIn(AfterScribble(s, target, bytes).dir, Tracked(s), w.key)
  {
    hide WriteInv, Conserved, Undisturbed, KnownIn, TmpName, LevelOf;
    TmpAndWalAreSkipped(target);
    SkippedIsUndisturbed(s, TmpName(target), bytes, w);
    DirectoryChanges(s, s.dir[TmpName(target) := bytes], w);
  }

  /** A file written under a name one thread holds disturbs no one else. */
  lemma HeldNameIsUndisturbed(s: System, t: Tid, bytes: Bytes, w: Write)
    requires WriteInv(s, w) && PcOf(s, t).Swapped?
    ensures Undisturbed(s, s.dir[s.clients[t].name := bytes])
  {
    hide LevelOf, GoodFiles, KnownIn, Issued, Entries, OnlyValue, IsSsTable, TableAt;
    var name := s.clients[t].name;
    LevelFilesIssued(s, w);
    assert ThreadInv(s, t, w) && Holds(s.clients[t], name);
    forall u | u in s.clients && (s.clients[u].Renamed? || s.clients[u].Truncated?) ensures s.clients[u].name != name {
      assert u != t;
      assert Holds(s.clients[u], s.clients[u].name);
    }
  }

  lemma WriteRename(s: System, t: Tid, c: Config, w: Write)
    requires WriteInv(s, w) && CanRename(s, t, c)
    ensures WriteInv(AfterRename(s, t, c), w) && (Conserved(s, w) ==> Conserved(AfterRename(s, t, c), w))
    ensures KnownIn(s.dir, Tracked(s), w.key) ==> KnownIn(AfterRename(s, t, c).dir, Tracked(s), w.key)
  {
    hide Undisturbed, KnownIn, GoodFiles, IsSsTable, Entries, TableAt, Issued, TmpName, LevelOf, FileBytes, FileFits;
    hide OnlyValue, Sorted;
    hide CompactorOk, NamesApart, AllIssued;
    var name, table := s.clients[t].name, s.clients[t].table;
    var file := FileBytes(Entries(table), c.sizing(|table|));
    assert ThreadInv(s, t, w);
    TmpAndWalAreSkipped(name);
    SkippedIsUndisturbed(s, TmpName(name), [], w);
    DirectoryChanges(s, s.dir - {TmpName(name)}, w);
    var cleared := s.(dir := s.dir - {TmpName(name)});
    HeldNameIsUndisturbed(cleared, t, file, w);
    DirectoryChanges(cleared, cleared.dir[name := file], w);
    var written := cleared.(dir := cleared.dir[name := file]);
    EntriesAreTheMap(table);
    NewFileIsSsTable(written.dir, name, Entries(table), c.sizing(|table|));
    ThreadMoves(written, t, Renamed(name, table), w);
  }

  lemma WriteTruncate(s: System, t: Tid, w: Write)
    requires WriteInv(s, w) && PcOf(s, t).Renamed?
    ensures WriteInv(AfterTruncate(s, t), w) && (Conserved(s, w) ==> Conserved(AfterTruncate(s, t), w))
    ensures KnownIn(s.dir, Tracked(s), w.key) ==> KnownIn(AfterTruncate(s, t).dir, Tracked(s), w.key)
  {
    hide Undisturbed, KnownIn, GoodFiles, IsSsTable, Entries, TableAt, Issued, LevelOf, OnlyValue, CompactorOk;
    hide NamesApart, AllIssued;
    WalIsSkipped();
    SkippedIsUndisturbed(s, WAL_NAME, [], w);
    var dir := WithoutLog(s.dir);
    DirectoryChanges(s, dir, w);
    assert ThreadInv(s.(dir := dir), t, w);
    ThreadMoves(s.(dir := dir), t, Truncated(s.clients[t].name, s.clients[t].table), w);
  }

  lemma WriteRegister(s: System, t: Tid, w: Write)
    requires WriteInv(s, w) && CanRegister(s, t)
    ensures WriteInv(AfterRegister(s, t), w) && (Conserved(s, w) ==> Conserved(AfterRegister(s, t), w))
    ensures KnownIn(s.dir, Tracked(s), w.key) ==>
              KnownIn(AfterRegister(s, t).dir, Tracked(AfterRegister(s, t)), w.key)
  {
    hide KnownIn, GoodFiles, GoodFile, IsSsTable, Entries, TableAt, Issued, OnlyValue, Lookup;
    NothingWrong(w);
    var name, table, after := s.clients[t].name, s.clients[t].table, AfterRegister(s, t);
    assert ThreadInv(s, t, w) && Holds(s.clients[t], name);
    FlushFileIsGood(s, t, w);
    GoodConcat(s.dir, s.l0, s.l1, w);
    GoodConcat(s.dir, s.l0, [name], w);
    GoodConcat(s.dir, s.l0 + [name], s.l1, w);
    KnownConcat(s.dir, s.l0, s.l1, w.key);
    KnownConcat(s.dir, s.l0, [name], w.key);
    KnownConcat(s.dir, s.l0 + [name], s.l1, w.key);
    KnownOne(s.dir, name, w.key);
    forall u | u in after.clients ensures ThreadInv(after, u, w) {
      if u != t {
        assert ThreadInv(s, u, w);
        forall n | Holds(s.clients[u], n) ensures n != name { }
      }
    }
    if SomeFlightHas(s, w.key) {
      var u :| u in s.clients && w.key in InFlight(s.clients[u]);
      if u != t {
        assert w.key in InFlight(after.clients[u]);
      }
    }
  }

  /** The file of a finished flush is a good level-0 file that knows what the flush holds. */
  lemma FlushFileIsGood(s: System, t: Tid, w: Write)
    requires t in s.clients && ThreadInv(s, t, w) && s.clients[t].Truncated?
    ensures GoodFiles(s.dir, [s.clients[t].name], w)
    ensures w.key in s.clients[t].table ==> Lookup(TableAt(s.dir, s.clients[t].name), w.key).Some?
  {
    hide IsSsTable, Entries, TableAt, Issued, Lookup;
    EntriesAreTheMap(s.clients[t].table);
  }

  // ---------- compaction ----------

  lemma GoodTables(dir: Directory, names: seq<Name>, w: Write)
    requires GoodFiles(dir, names, w)
    ensures AreSsTables(dir, names) && AllSorted(TablesAt(dir, names))
    ensures AgreeOn(TablesAt(dir, names), w.key, w.value)
    ensures KnownIn(dir, names, w.key) <==> Knows(TablesAt(dir, names), w.key)
  {
    hide IsSsTable, TableAt, Lookup, Sorted;
    forall i | 0 <= i < |names| ensures IsSsTable(dir, names[i]) && TablesAt(dir, names)[i] == TableAt(dir, names[i]) {
      assert GoodFile(dir, names[i], w);
    }
    SsTablesAreTables(dir, names);
    AreTablesSorted(dir, names);
  }

  /** Merging good files gives a good table that knows the key if any input does. */
  lemma MergedIsGood(dir: Directory, inputs: seq<Name>, w: Write)
    requires GoodFiles(dir, inputs, w) && w.value != TOMBSTONE
    ensures var m := Compacted(TablesAt(dir, inputs));
            Sorted(m) && Lookup(m, w.key) == if KnownIn(dir, inputs, w.key) then Some(w.value) else None
  {
    hide GoodFiles, KnownIn, TablesAt, Compacted, Sorted, AgreeOn, Knows, AllSorted;
    GoodTables(dir, inputs, w);
    CompactedLookup(TablesAt(dir, inputs), w.key);
    FirstHitAgreed(TablesAt(dir, inputs), w.key, w.value);
  }

  /** The two parts of level 1, without any order on the names. */
  lemma {:induction false} PartsCover(dir: Directory, names: seq<Name>, hull: Range, name: Name)
    requires NonEmpty(dir, names)
    ensures name in names <==>
            name in SelectNames(dir, names, hull, true) || name in SelectNames(dir, names, hull, false)
    ensures name in SelectNames(dir, names, hull, true) ==>
              TableAt(dir, name) != [] && Overlap(hull, RangeOf(TableAt(dir, name)))
    ensures name in SelectNames(dir, names, hull, false) ==>
              TableAt(dir, name) != [] && !Overlap(hull, RangeOf(TableAt(dir, name)))
  {
    hide TableAt, Overlap;
    if names != [] {
      PartsCover(dir, names[1..], hull, name);
      assert names == [names[0]] + names[1..];
    }
  }

  /** What the inputs and the kept files of a compaction are. */
  lemma InputsAndKept(s: System)
    requires s.l0 != [] && NonEmpty(s.dir, s.l0) && NonEmpty(s.dir, s.l1)
    ensures var inputs, kept := Inputs(s), L1Part([s.l0, s.l1], s.dir, false);
            Divided(s, inputs, kept)
  {
    hide TableAt, Overlap, HullOf, NonEmpty, SelectNames;
    NonEmptyTables(s.dir, s.l0);
    var hull := HullOf(TablesAt(s.dir, s.l0));
    forall n
      ensures n in s.l1 <==> n in L1Part([s.l0, s.l1], s.dir, true) || n in L1Part([s.l0, s.l1], s.dir, false)
      ensures !(n in L1Part([s.l0, s.l1], s.dir, true) && n in L1Part([s.l0, s.l1], s.dir, false))
    {
      PartsCover(s.dir, s.l1, hull, n);
    }
  }

  lemma KnownMember(dir: Directory, names: seq<Name>, key: Bytes)
    ensures KnownIn(dir, names, key) <==> exists n :: n in names && Lookup(TableAt(dir, n), key).Some?
  {
    hide TableAt, Lookup;
    if KnownIn(dir, names, key) {
      var i :| 0 <= i < |names| && Lookup(TableAt(dir, names[i]), key).Some?;
      assert names[i] in names;
    }
  }

  lemma WriteMerge(s: System, c: Config, w: Write)
    requires WriteInv(s, w) && CanMerge(s, c) && w.value != TOMBSTONE
    ensures WriteInv(AfterMerge(s, c), w) && (Conserved(s, w) ==> Conserved(AfterMerge(s, c), w))
    ensures KnownIn(s.dir, Tracked(s), w.key) ==> KnownIn(AfterMerge(s, c).dir, Tracked(AfterMerge(s, c)), w.key)
  {
    hide KnownIn, GoodFiles, IsSsTable, Entries, TableAt, Issued, TmpName, LevelOf, FileBytes, FileFits, OnlyValue;
    hide Sorted;
    hide LevelName, Compacted, NonEmpty, SelectNames, L1Part, Inputs, Undisturbed, TotalRecords, Decimal, WriteInv;
    hide Conserved, TablesAt;
    RestingFilesAreGood(s, w);
    var inputs, kept, output := Inputs(s), L1Part([s.l0, s.l1], s.dir, false), LevelName(1, s.clock);
    var m := Compacted(TablesAt(s.dir, inputs));
    var shape := c.sizing(TotalRecords(TablesAt(s.dir, inputs)));
    InputsAndKept(s);
    assert forall n :: n in s.l0 + s.l1 <==> n in s.l0 || n in s.l1;
    GoodMember(s.dir, s.l0 + s.l1, inputs, w);
    MergedIsGood(s.dir, inputs, w);
    OutputWritten(s, inputs, m, shape, w);
    var written := s.(dir := WithTable(s.dir, output, m, shape));
    assert AfterMerge(s, c).dir == written.dir;
    TimePasses(written, s.clock + 1, w);
    JustIssued(1, s.clock);
    MergeBegins(written.(clock := s.clock + 1), inputs, kept, output, w);
  }

  lemma RestingFilesAreGood(s: System, w: Write)
    requires WriteInv(s, w) && s.compactor == Resting
    ensures GoodFiles(s.dir, s.l0 + s.l1, w)
  {
    hide KnownIn, GoodFiles, ThreadInv, NamesApart, AllIssued, OnlyValue;
  }

  /** Writing the merged file under its new name disturbs nothing. */
  lemma OutputWritten(s: System, inputs: seq<Name>, m: Table, shape: FilterShape, w: Write)
    requires WriteInv(s, w) && s.compactor == Resting && FileFits(m, shape) && Sorted(m)
    requires GoodFiles(s.dir, inputs, w) && forall n | n in inputs :: n in s.l0 + s.l1
    ensures var output := LevelName(1, s.clock);
            var dir := WithTable(s.dir, output, m, shape);
            && WriteInv(s.(dir := dir), w) && (Conserved(s, w) ==> Conserved(s.(dir := dir), w))
            && output !in s.l0 && output !in s.l1
            && IsSsTable(dir, output) && TableAt(dir, output) == m
            && (KnownIn(dir, inputs, w.key) <==> KnownIn(s.dir, inputs, w.key))
            && (KnownIn(s.dir, Tracked(s), w.key) ==> KnownIn(dir, Tracked(s), w.key))
  {
    hide KnownIn, GoodFiles, IsSsTable, TableAt, TmpName, LevelOf, FileBytes, FileFits, Sorted, LevelName;
    hide Undisturbed, WriteInv, Conserved;
    var output := LevelName(1, s.clock);
    var cleared := s.(dir := s.dir - {TmpName(output)});
    TmpAndWalAreSkipped(output);
    SkippedIsUndisturbed(s, TmpName(output), [], w);
    DirectoryChanges(s, cleared.dir, w);
    BytesKept(s, cleared.dir, inputs, w);
    NewOutputIsUndisturbed(cleared, FileBytes(m, shape), w);
    var dir := cleared.dir[output := FileBytes(m, shape)];
    DirectoryChanges(cleared, dir, w);
    BytesKept(cleared, dir, inputs, w);
    NewFileIsSsTable(dir, output, m, shape);
  }

  /** Files the change leaves alone know the key as before. */
  lemma BytesKept(s: System, dir: Directory, names: seq<Name>, w: Write)
    requires Undisturbed(s, dir) && GoodFiles(s.dir, names, w) && forall n | n in names :: n in LevelFiles(s)
    ensures GoodFiles(dir, names, w) && (KnownIn(dir, names, w.key) <==> KnownIn(s.dir, names, w.key))
  {
    hide TableOf, Lookup, IsFileOf, KnownIn;
    forall n | n in names ensures n in s.dir && n in dir && dir[n] == s.dir[n] {
      var i :| 0 <= i < |names| && names[i] == n;
      assert GoodFile(s.dir, names[i], w);
    }
    SameFacts(s.dir, dir, names, w);
    SameFacts(dir, s.dir, names, w);
  }

  lemma NewOutputIsUndisturbed(s: System, bytes: Bytes, w: Write)
    requires WriteInv(s, w) && s.compactor == Resting
    ensures Undisturbed(s, s.dir[LevelName(1, s.clock) := bytes])
    ensures LevelName(1, s.clock) !in s.l0 && LevelName(1, s.clock) !in s.l1
  {
    hide LevelOf, GoodFiles, KnownIn, Issued, Entries, OnlyValue, IsSsTable, TableAt, LevelName;
    var output := LevelName(1, s.clock);
    LevelOfLevelName(1, s.clock);
    forall i | 0 <= i < |s.l0| ensures s.l0[i] != output {
      IssuedLevel(s.l0[i], 0, s.clock);
    }
    forall i | 0 <= i < |s.l1| ensures s.l1[i] != output {
      FreshName(s.l1[i], 1, s.clock);
    }
    forall t | t in s.clients && (s.clients[t].Renamed? || s.clients[t].Truncated?)
      ensures s.clients[t].name != output
    {
      assert ThreadInv(s, t, w) && Holds(s.clients[t], s.clients[t].name);
      IssuedLevel(s.clients[t].name, 0, s.clock);
    }
  }

  /** How the compaction thread has divided the files of a state. */
  ghost predicate Divided(s: System, inputs: seq<Name>, kept: seq<Name>) {
    && (forall n | n in inputs :: n in s.l0 || n in s.l1)
    && (forall n | n in kept :: n in s.l1)
    && (forall n | n in s.l0 || n in s.l1 :: n in inputs || n in kept)
    && (forall n | n in kept && n in inputs :: n in s.l0)
  }

  /** The output is in place: the compaction thread may go on to delete its inputs. */
  lemma MergeBegins(s: System, inputs: seq<Name>, kept: seq<Name>, output: Name, w: Write)
    requires WriteInv(s, w) && s.compactor == Resting && Divided(s, inputs, kept)
    requires Issued(output, 1, s.clock) && output !in s.l0 && output !in s.l1
    requires GoodFile(s.dir, output, w)
    requires KnownIn(s.dir, inputs, w.key) ==> Lookup(TableAt(s.dir, output), w.key).Some?
    ensures WriteInv(s.(compactor := Merged(inputs, kept, output)), w) &&
            (Conserved(s, w) ==> Conserved(s.(compactor := Merged(inputs, kept, output)), w))
  {
    hide KnownIn, GoodFiles, GoodFile, IsSsTable, Entries, TableAt, Issued, OnlyValue, LevelName, Lookup, LevelOf;
    hide Divided, NamesApart, AllIssued;
    var after := s.(compactor := Merged(inputs, kept, output));
    assert CompactorOk(after, w) by { DividedIsOk(s, inputs, kept, output, w); }
    forall u | u in after.clients ensures ThreadInv(after, u, w) {
      assert ThreadInv(s, u, w);
    }
    if SomeFlightHas(s, w.key) {
      var u :| u in s.clients && w.key in InFlight(s.clients[u]);
      assert w.key in InFlight(after.clients[u]);
    }
    OneGoodFile(s.dir, output, w);
    GoodConcat(s.dir, s.l0 + s.l1, [output], w);
    SameNamesApart(s, after);
  }

  lemma SameNamesApart(s: System, after: System)
    requires NamesApart(s) && after.clients == s.clients
    ensures NamesApart(after)
  {
  }

  lemma DividedIsOk(s: System, inputs: seq<Name>, kept: seq<Name>, output: Name, w: Write)
    requires WriteInv(s, w) && Divided(s, inputs, kept)
    requires Issued(output, 1, s.clock) && output !in s.l0 && output !in s.l1
    requires KnownIn(s.dir, inputs, w.key) ==> Lookup(TableAt(s.dir, output), w.key).Some?
    ensures CompactorOk(s.(compactor := Merged(inputs, kept, output)), w)
  {
    hide KnownIn, WriteInv, Conserved, TableAt, Issued, Lookup;
    forall n | n in kept ensures n !in inputs {
      if n in inputs {
        LevelsApart(s, w, n);
      }
    }
    KnownDivided(s, inputs, kept, output, w.key);
  }

  lemma KnownDivided(s: System, inputs: seq<Name>, kept: seq<Name>, output: Name, key: Bytes)
    requires Divided(s, inputs, kept)
    requires KnownIn(s.dir, inputs, key) ==> Lookup(TableAt(s.dir, output), key).Some?
    ensures KnownIn(s.dir, s.l0 + s.l1, key) ==> KnownIn(s.dir, kept + [output], key)
  {
    hide KnownIn, TableAt, Lookup;
    KnownConcat(s.dir, kept, [output], key);
    KnownOne(s.dir, output, key);
    KnownMember(s.dir, s.l0 + s.l1, key);
    KnownMember(s.dir, inputs, key);
    KnownMember(s.dir, kept, key);
  }

  lemma OneGoodFile(dir: Directory, name: Name, w: Write)
    requires GoodFile(dir, name, w)
    ensures GoodFiles(dir, [name], w)
  {
    hide GoodFile;
  }

  lemma LevelsApart(s: System, w: Write, n: Name)
    requires WriteInv(s, w) && n in s.l0
    ensures n !in s.l1
  {
    hide GoodFiles, KnownIn, Issued, Entries, OnlyValue, IsSsTable, TableAt, LevelOf;
    IssuedLevel(n, 0, s.clock);
    forall i | 0 <= i < |s.l1| ensures s.l1[i] != n {
      IssuedLevel(s.l1[i], 1, s.clock);
    }
  }

  lemma WriteDelete(s: System, w: Write)
    requires WriteInv(s, w) && s.compactor.Merged?
    ensures WriteInv(AfterDelete(s), w) && (Conserved(s, w) ==> Conserved(AfterDelete(s), w))
    ensures KnownIn(s.dir, Tracked(s), w.key) ==> KnownIn(AfterDelete(s).dir, Tracked(AfterDelete(s)), w.key)
  {
    hide KnownIn, GoodFiles, IsSsTable, Entries, TableAt, Issued, OnlyValue, SetOf, LevelOf;
    var inputs, kept, output := s.compactor.inputs, s.compactor.kept, s.compactor.output;
    var after := AfterDelete(s);
    var rest := kept + [output];
    TrackedAreLevelFiles(s, w);
    GoodMember(s.dir, LevelFiles(s), rest, w);
    forall n | n in rest && n in s.dir ensures n in after.dir && after.dir[n] == s.dir[n] {
      InSetOf(inputs, n);
    }
    SameFacts(s.dir, after.dir, rest, w);
    forall u | u in after.clients ensures ThreadInv(after, u, w) {
      ThreadAfterDelete(s, u, w);
    }
    if SomeFlightHas(s, w.key) {
      var u :| u in s.clients && w.key in InFlight(s.clients[u]);
      assert w.key in InFlight(after.clients[u]);
    }
    forall i | 0 <= i < |rest| ensures Issued(rest[i], 1, s.clock) {
      assert rest[i] in kept || rest[i] == output;
      if rest[i] in kept {
        var j :| 0 <= j < |s.l1| && s.l1[j] == rest[i];
      }
    }
  }

  lemma ThreadAfterDelete(s: System, u: Tid, w: Write)
    requires WriteInv(s, w) && s.compactor.Merged? && u in s.clients
    ensures ThreadInv(AfterDelete(s), u, w)
  {
    hide KnownIn, GoodFiles, TableOf, Entries, Issued, OnlyValue, SetOf, LevelOf, IsFileOf;
    var pc, inputs := s.clients[u], s.compactor.inputs;
    assert ThreadInv(s, u, w);
    if pc.Renamed? || pc.Truncated? {
      assert Holds(pc, pc.name);
      InSetOf(inputs, pc.name);
      IssuedLevel(pc.name, 0, s.clock);
      forall i | 0 <= i < |s.l1| ensures s.l1[i] != pc.name {
        IssuedLevel(s.l1[i], 1, s.clock);
      }
      assert pc.name !in inputs;
      var after := AfterDelete(s);
      assert after.dir[pc.name] == s.dir[pc.name];
      assert IsSsTable(after.dir, pc.name) && TableAt(after.dir, pc.name) == TableAt(s.dir, pc.name);
    }
  }

  lemma WritePublish(s: System, w: Write)
    requires WriteInv(s, w) && s.compactor.Deleted?
    ensures WriteInv(AfterPublish(s), w) && (Conserved(s, w) ==> Conserved(AfterPublish(s), w))
    ensures KnownIn(s.dir, Tracked(s), w.key) ==> KnownIn(AfterPublish(s).dir, Tracked(AfterPublish(s)), w.key)
  {
    hide KnownIn, GoodFiles, IsSsTable, Entries, TableAt, Issued, OnlyValue;
    var after := AfterPublish(s);
    assert [] + (s.compactor.kept + [s.compactor.output]) == s.compactor.kept + [s.compactor.output];
    assert Tracked(after) == Tracked(s);
    forall u | u in after.clients ensures ThreadInv(after, u, w) {
      assert ThreadInv(s, u, w);
    }
    if SomeFlightHas(s, w.key) {
      var u :| u in s.clients && w.key in InFlight(s.clients[u]);
      assert w.key in InFlight(after.clients[u]);
    }
  }

  /** A failed compaction forgets files and damages none. */
  lemma WriteFail(s: System, w: Write)
    requires WriteInv(s, w) && CanFail(s)
    ensures WriteInv(AfterFail(s), w)
  {
    hide KnownIn, IsSsTable, Entries, TableAt, Issued, OnlyValue, NonEmpty, GoodFiles, NamesApart, AllIssued, ThreadInv;
    var after := AfterFail(s);
    FilesAfterFail(s, w);
    SameNamesApart(s, after);
    assert AllIssued([], 0, s.clock) && AllIssued([], 1, s.clock) by { NoneIssued(s.clock); }
    forall u | u in after.clients ensures ThreadInv(after, u, w) {
      ThreadAfterFail(s, u, w);
    }
  }

  lemma NoneIssued(clock: nat)
    ensures AllIssued([], 0, clock) && AllIssued([], 1, clock)
  {
  }

  lemma ThreadAfterFail(s: System, u: Tid, w: Write)
    requires u in s.clients && ThreadInv(s, u, w)
    ensures ThreadInv(AfterFail(s), u, w)
  {
    hide IsSsTable, Entries, TableAt, Issued, OnlyValue, NonEmpty;
  }

  lemma FilesAfterFail(s: System, w: Write)
    requires GoodFiles(s.dir, s.l0 + s.l1, w) && CanFail(s)
    ensures GoodFiles(s.dir, LevelFiles(AfterFail(s)), w)
  {
    hide GoodFile, NonEmpty;
    GoodConcat(s.dir, s.l0, s.l1, w);
    assert LevelFiles(AfterFail(s)) == AfterFail(s).l1;
  }

  // ---------- whole runs ----------

  /** One step: the invariant stays, and a tracked record stays tracked. */
  lemma WriteStep(s: System, e: Event, c: Config, w: Write)
    requires WriteInv(s, w) && Enabled(s, e, c) && OnlyWrites(e, w) && !e.Crash? && w.value != TOMBSTONE
    ensures WriteInv(Do(s, e, c), w)
    ensures !e.Fail? && Conserved(s, w) ==> Conserved(Do(s, e, c), w)
    ensures !e.Fail? && KnownIn(s.dir, Tracked(s), w.key) ==> KnownIn(Do(s, e, c).dir, Tracked(Do(s, e, c)), w.key)
  {
    hide WriteInv, Conserved, KnownIn, CanAppend, CanInsert, CanChooseName, CanSwap, CanRename, CanRegister, CanMerge;
    hide IsDiscovered;
    hide MustFlush, Applied, WithTable, WithOutput, WithoutLog, WithLogged, LevelName, Encoding;
    match e
    case Append(t, entry) => WriteAppend(s, t, entry, w);
    case Insert(t) => WriteInsert(s, t, c, w);
    case ChooseName(t) => WriteChooseName(s, t, c, w);
    case Swap(t) => WriteSwap(s, t, w);
    case Scribble(target, bytes) => WriteScribble(s, target, bytes, w);
    case Rename(t) => WriteRename(s, t, c, w);
    case Truncate(t) => WriteTruncate(s, t, w);
    case Register(t) => WriteRegister(s, t, w);
    case Merge => WriteMerge(s, c, w);
    case DeleteInputs => WriteDelete(s, w);
    case Publish => WritePublish(s, w);
    case Fail => WriteFail(s, w);
    case Crash(_, _, _) =>
  }

  ghost predicate WrittenOnce(events: seq<Event>, w: Write) {
    w.value != TOMBSTONE && forall i | 0 <= i < |events| :: Respects(events[i], w)
  }

  lemma WriteInitial(s: System, threads: set<Tid>, w: Write)
    requires Initial(s, threads)
    ensures WriteInv(s, w) && Conserved(s, w)
  {
    assert LevelFiles(s) == [];
  }

  lemma {:induction false} RunKeepsWrite(states: seq<System>, events: seq<Event>, c: Config, threads: set<Tid>,
                                         w: Write, n: nat)
    requires IsRun(states, events, c) && Initial(states[0], threads) && WrittenOnce(events, w) && n < |states|
    ensures WriteInv(states[n], w) && Conserved(states[n], w)
  {
    hide WriteInv, Conserved, Enabled, Do, OnlyWrites, Initial;
    if n == 0 {
      WriteInitial(states[0], threads, w);
    } else {
      RunKeepsWrite(states, events, c, threads, w, n - 1);
      WriteStep(states[n - 1], events[n - 1], c, w);
    }
  }

  /** Conservation: in every reachable state of any number of threads, a record that has reached the
      memtable is in the memtable, in a flush in flight, or in a tracked file. */
  lemma RecordIsConserved(states: seq<System>, events: seq<Event>, c: Config, threads: set<Tid>, w: Write, n: nat)
    requires IsRun(states, events, c) && Initial(states[0], threads) && WrittenOnce(events, w) && n < |states|
    ensures w.key in states[n].inserted ==> Present(states[n], w.key)
  {
    hide IsRun, Initial, WrittenOnce, Present, ThreadInv, NamesApart, AllIssued, GoodFiles, CompactorOk, OnlyValue;
    RunKeepsWrite(states, events, c, threads, w, n);
  }

  /** What good files answer. */
  lemma GoodFilesAnswer(dir: Directory, l0: seq<Name>, l1: seq<Name>, w: Write)
    requires GoodFiles(dir, l0 + l1, w) && w.value != TOMBSTONE
    ensures Live(FirstHit(TablesAt(dir, ReadOrder([l0, l1])), w.key)) ==
            if KnownIn(dir, l0 + l1, w.key) then Some(w.value) else None
  {
    hide GoodFiles, KnownIn, TablesAt, AgreeOn, Knows, AreSsTables, AllSorted;
    var order := ReadOrder([l0, l1]);
    assert [l0, l1][1..] == [l1] && [l1][1..] == [];
    assert order == Reversed(l0) + l1 by { assert Flatten([l1]) == l1 + Flatten([]) == l1; }
    ReversedHas(l0);
    assert forall n :: n in order <==> n in l0 + l1;
    GoodMember(dir, l0 + l1, order, w);
    GoodTables(dir, order, w);
    FirstHitAgreed(TablesAt(dir, order), w.key, w.value);
    KnownMember(dir, order, w.key);
    KnownMember(dir, l0 + l1, w.key);
  }

  /** A read at one instant finds an inserted record exactly unless it sits only in flushes in flight,
      between the memtable swap and the registration of the file. */
  lemma GetFindsUnlessInFlight(states: seq<System>, events: seq<Event>, c: Config, threads: set<Tid>, w: Write, n: nat)
    requires IsRun(states, events, c) && Initial(states[0], threads) && WrittenOnce(events, w) && n < |states|
    requires states[n].compactor == Resting && w.key in states[n].inserted
    ensures var s := states[n];
            && (Get(s, w.key) == Some(w.value) || Get(s, w.key) == None)
            && (Get(s, w.key) == Some(w.value) <==> w.key in s.mem || KnownIn(s.dir, Tracked(s), w.key))
            && (Get(s, w.key) == None ==> SomeFlightHas(s, w.key))
  {
    hide IsRun, Initial, KnownIn, ThreadInv, NamesApart, AllIssued, GoodFiles, CompactorOk, SomeFlightHas, TablesAt;
    hide FirstHit;
    RunKeepsWrite(states, events, c, threads, w, n);
    GoodFilesAnswer(states[n].dir, states[n].l0, states[n].l1, w);
  }

  lemma {:induction false} TrackedStays(states: seq<System>, events: seq<Event>, c: Config, threads: set<Tid>,
                                        w: Write, i: nat, j: nat)
    requires IsRun(states, events, c) && Initial(states[0], threads) && WrittenOnce(events, w) && i <= j < |states|
    requires KnownIn(states[i].dir, Tracked(states[i]), w.key)
    ensures KnownIn(states[j].dir, Tracked(states[j]), w.key)
    decreases j - i
  {
    hide WriteInv, Conserved, Enabled, Do, OnlyWrites, Initial, KnownIn, Tracked;
    if i < j {
      TrackedStays(states, events, c, threads, w, i, j - 1);
      RunKeepsWrite(states, events, c, threads, w, j - 1);
      WriteStep(states[j - 1], events[j - 1], c, w);
    }
  }

  /** `get` as written, with the memtable looked at in one state and the files in a later one, and other threads
      at work in between: it finds an inserted record exactly if the memtable has it at the first look or a
      tracked file at the second. It misses one only if at the first look the record was in a flush in flight
      and in no tracked file, and no flush has registered it by the second. */
  lemma TwoPhaseGet(states: seq<System>, events: seq<Event>, c: Config, threads: set<Tid>, w: Write, i: nat, j: nat)
    requires IsRun(states, events, c) && Initial(states[0], threads) && WrittenOnce(events, w) && i <= j < |states|
    requires w.key in states[i].inserted && states[j].compactor == Resting
    ensures var found := w.key in states[i].mem || KnownIn(states[j].dir, Tracked(states[j]), w.key);
            && GetInTwoLooks(states[i], states[j], w.key) == (if found then Some(w.value) else None)
            && (!found ==> SomeFlightHas(states[i], w.key) && !KnownIn(states[i].dir, Tracked(states[i]), w.key))
  {
    hide IsRun, Initial, KnownIn, ThreadInv, NamesApart, AllIssued, GoodFiles, CompactorOk, SomeFlightHas, TablesAt;
    hide FirstHit;
    RunKeepsWrite(states, events, c, threads, w, i);
    RunKeepsWrite(states, events, c, threads, w, j);
    GoodFilesAnswer(states[j].dir, states[j].l0, states[j].l1, w);
    if KnownIn(states[i].dir, Tracked(states[i]), w.key) {
      TrackedStays(states, events, c, threads, w, i, j);
    }
  }
}
