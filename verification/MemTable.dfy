/** The sorted in-memory table. */
module MemTable {
  import opened Wrappers
  import opened Bytes
  import opened Names
  import opened Storage
  import opened Tables
  import opened SsTableFormat
  import opened SsTableWriter

  type KeyValues = map<Bytes, Bytes>

  predicate IsMinKey(key: Bytes, m: KeyValues) {
    key in m && forall other | other in m :: !Less(other, key)
  }

  lemma {:induction false} MinKeyExists(m: KeyValues)
    requires m != map[]
    ensures exists key :: IsMinKey(key, m)
    decreases |m|
  {
    hide Less;
    LessIsStrictTotal();
    var key :| key in m;
    var rest := m - {key};
    if rest == map[] {
      assert forall other | other in m && other != key :: other in rest;
      assert IsMinKey(key, m);
    } else {
      MinKeyExists(rest);
      var min :| IsMinKey(min, rest);
      assert forall other | other in m && other != key :: other in rest;
      assert IsMinKey(if Less(key, min) then key else min, m);
    }
  }

  lemma MinKeyUnique(a: Bytes, b: Bytes, m: KeyValues)
    requires IsMinKey(a, m) && IsMinKey(b, m)
    ensures a == b
  {
    LessConnected(a, b);
  }

  ghost function MinKey(m: KeyValues): (key: Bytes)
    requires m != map[]
    ensures IsMinKey(key, m)
  {
    MinKeyExists(m);
    var key :| IsMinKey(key, m);
    key
  }

  /** The records in the order the map iterates. */
  ghost function Entries(m: KeyValues): Table
    decreases |m|
  {
    if m == map[] then [] else
    var key := MinKey(m);
    [Record(key, m[key])] + Entries(m - {key})
  }

  function Found(m: KeyValues, key: Bytes): Option<Bytes> {
    if key in m then Some(m[key]) else None
  }

  lemma EntriesStep(m: KeyValues, key: Bytes)
    requires IsMinKey(key, m)
    ensures Entries(m) == [Record(key, m[key])] + Entries(m - {key})
    ensures |m - {key}| == |m| - 1
  {
    hide Less;
    MinKeyUnique(key, MinKey(m), m);
    assert (m - {key}).Keys == m.Keys - {key};
  }

  /** The entries are the map: sorted, one record per key, with its value. */
  lemma {:induction false} EntriesAreTheMap(m: KeyValues)
    ensures Sorted(Entries(m)) && |Entries(m)| == |m|
    ensures forall key :: Lookup(Entries(m), key) == Found(m, key)
    decreases |m|
  {
    hide Less, Entries;
    if m == map[] {
      NoEntries();
    } else {
      var min := MinKey(m);
      var rest := m - {min};
      EntriesStep(m, min);
      EntriesAreTheMap(rest);
      var t := Entries(rest);
      LessIsStrictTotal();
      forall i | 0 <= i < |t| ensures Less(min, t[i].key) {
        LookupIffHasKey(t, t[i].key);
        assert Found(rest, t[i].key).Some?;
      }
      forall key ensures Lookup(Entries(m), key) == Found(m, key) {
        assert Entries(m)[1..] == t;
        assert Lookup(t, key) == Found(rest, key);
      }
    }
  }

  lemma NoEntries()
    ensures Entries(map[]) == []
  {
  }

  function TableBytes(t: Table): nat {
    if t == [] then 0 else |t[0].key| + |t[0].value| + TableBytes(t[1..])
  }

  /** Taking one binding away takes its bytes away. */
  lemma {:induction false} SizeWithout(m: KeyValues, key: Bytes)
    requires key in m
    ensures TableBytes(Entries(m)) == |key| + |m[key]| + TableBytes(Entries(m - {key}))
    decreases |m|
  {
    hide Less, Entries, IsMinKey;
    MinKeyExists(m);
    var min :| IsMinKey(min, m);
    SizeOfMin(m, min);
    if min != key {
      var rest := m - {min};
      MinOfPart(min, m, key);
      SizeOfMin(m - {key}, min);
      assert rest - {key} == (m - {key}) - {min};
      MinKeyIsKey(min, m);
      EntriesStep(m, min);
      SizeWithout(rest, key);
    }
  }

  lemma SizeOfMin(m: KeyValues, min: Bytes)
    requires IsMinKey(min, m)
    ensures min in m && TableBytes(Entries(m)) == |min| + |m[min]| + TableBytes(Entries(m - {min}))
  {
    hide Less, Entries;
    EntriesStep(m, min);
    assert Entries(m)[1..] == Entries(m - {min});
  }

  lemma MinOfPart(min: Bytes, m: KeyValues, key: Bytes)
    requires IsMinKey(min, m) && key != min
    ensures IsMinKey(min, m - {key})
  {
  }

  /** The size of a memtable: zero without bindings, and a write adds the bytes of its key and value, less those of
      the binding it replaces. */
  lemma SizeOfWrite(m: KeyValues, key: Bytes, value: Bytes)
    ensures TableBytes(Entries(map[])) == 0
    ensures TableBytes(Entries(m[key := value])) + (if key in m then |key| + |m[key]| else 0) ==
            TableBytes(Entries(m)) + |key| + |value|
  {
    hide Entries;
    NoEntries();
    SizeWithout(m[key := value], key);
    assert m[key := value] - {key} == m - {key};
    if key in m {
      SizeWithout(m, key);
    } else {
      assert m - {key} == m;
    }
  }

  function InRange(r: Record, start: Bytes, end: Bytes): bool {
    AtMost(start, r.key) && Less(r.key, end) && r.value != TOMBSTONE
  }

  /** The live records of `[start, end)`, in order. */
  function Window(t: Table, start: Bytes, end: Bytes): Table {
    if t == [] then [] else
    var rest := Window(t[1..], start, end);
    if InRange(t[0], start, end) then [t[0]] + rest else rest
  }

  class MemTable {
    var data: KeyValues

    constructor ()
      ensures data == map[]
    {
      data := map[];
    }

    method Get(key: Bytes) returns (r: Option<Bytes>)
      ensures r == Found(data, key)
    {
      r := if key in data then Some(data[key]) else None;
    }

    method Set(key: Bytes, value: Bytes)
      modifies this
      ensures data == old(data)[key := value]
    {
      data := data[key := value];
    }

    method Delete(key: Bytes)
      modifies this
      ensures data == old(data)[key := TOMBSTONE] && SpellsTombstone(data[key])
    {
      data := data[key := TOMBSTONE];
    }

    method SizeBytes() returns (n: nat)
      ensures n == TableBytes(Entries(data))
    {
      hide Less, IsMinKey, Entries;
      n := 0;
      var rest := data;
      while rest != map[]
        invariant n + TableBytes(Entries(rest)) == TableBytes(Entries(data))
        decreases |rest|
      {
        MinKeyExists(rest);
        var key :| IsMinKey(key, rest);
        EntriesStep(rest, key);
        assert Entries(rest)[1..] == Entries(rest - {key});
        assert key in rest by { MinKeyIsKey(key, rest); }
        n := n + |key| + |rest[key]|;
        rest := rest - {key};
      }
      NoEntries();
    }

    /** Writes every record, tombstones included, as one SSTable. */
    method Flush(disk: Disk, path: Name, sizing: Sizing)
      modifies disk
      ensures disk.files == (old(disk.files) - {TmpName(path)})[path := FileBytes(Entries(data), sizing(|data|))]
    {
      hide Entries, Data, Index, FileBytes, Since, TmpName;
      var writer := new SsTableWriter(disk, path, |data|, sizing);
      WriteEntries(writer, data);
      assert [] + Entries(data) == Entries(data);
      writer.Finish(disk);
    }

    /** `scan`: `range` panics when the bounds are crossed, so they may not be. */
    method Scan(start: Bytes, end: Bytes) returns (r: Table)
      requires AtMost(start, end)
      ensures r == Window(Entries(data), start, end)
    {
      hide Less, IsMinKey, Entries, InRange;
      r := [];
      var rest := data;
      while rest != map[]
        invariant r + Window(Entries(rest), start, end) == Window(Entries(data), start, end)
        decreases |rest|
      {
        MinKeyExists(rest);
        var key :| IsMinKey(key, rest);
        EntriesStep(rest, key);
        assert Entries(rest)[1..] == Entries(rest - {key});
        assert key in rest by { MinKeyIsKey(key, rest); }
        if InRange(Record(key, rest[key]), start, end) {
          r := r + [Record(key, rest[key])];
        }
        rest := rest - {key};
      }
      NoEntries();
    }
  }

  /** The flush loop: one `add` per entry, in key order. */
  method WriteEntries(writer: SsTableWriter, m: KeyValues)
    requires writer.Valid()
    modifies writer, writer.filter.bits
    ensures writer.Valid() && writer.added == old(writer.added) + Entries(m)
  {
    hide Less, IsMinKey, Entries, Data, Index, Since, TmpName;
    var rest := m;
    while rest != map[]
      invariant writer.Valid()
      invariant writer.added + Entries(rest) == old(writer.added) + Entries(m)
      decreases |rest|
    {
      MinKeyExists(rest);
      var key :| IsMinKey(key, rest);
      EntriesStep(rest, key);
      MinKeyIsKey(key, rest);
      writer.Add(key, rest[key]);
      rest := rest - {key};
    }
    NoEntries();
  }

  lemma MinKeyIsKey(key: Bytes, m: KeyValues)
    requires IsMinKey(key, m)
    ensures key in m
  {
  }

  /** A scan finds exactly the live keys of the half-open range, each with its value. */
  lemma {:induction false} WindowLookup(t: Table, start: Bytes, end: Bytes, key: Bytes)
    requires Sorted(t)
    ensures Sorted(Window(t, start, end))
    ensures Lookup(Window(t, start, end), key) ==
            if AtMost(start, key) && Less(key, end) then Live(Lookup(t, key)) else None
  {
    hide Less;
    if t != [] {
      WindowLookup(t[1..], start, end, key);
      WindowKeys(t[1..], start, end);
      LessIsStrictTotal();
      LookupIffHasKey(t[1..], t[0].key);
    }
  }

  lemma {:induction false} WindowKeys(t: Table, start: Bytes, end: Bytes)
    ensures forall i | 0 <= i < |Window(t, start, end)| :: Window(t, start, end)[i] in t
  {
    hide Less;
    if t != [] {
      WindowKeys(t[1..], start, end);
    }
  }
}
