/** Reading an SSTable: footer and index parsing, point lookup, and the record iterator. */
module SsTableReader {
  import opened Wrappers
  import opened Bytes
  import opened Tables
  import opened Bloom
  import opened SsTableFormat

  datatype SsTableError = Io

  // ---------- where a lookup may start ----------

  ghost predicate IndexSorted(index: seq<(Bytes, nat)>) {
    forall i, j | 0 <= i < j < |index| :: Less(index[i].0, index[j].0)
  }

  datatype SearchResult = Found(at: nat) | Insert(at: nat)

  /** `binary_search_by` on the keys of the index. */
  method BinarySearch(index: seq<(Bytes, nat)>, key: Bytes) returns (r: SearchResult)
    ensures r.at <= |index|
    ensures r.Found? ==> r.at < |index| && index[r.at].0 == key
    ensures r.Insert? && IndexSorted(index) ==>
              && (forall i | 0 <= i < r.at :: Less(index[i].0, key))
              && (forall i | r.at <= i < |index| :: Less(key, index[i].0))
  {
    hide Less;
    var low, high := 0, |index|;
    while low < high
      invariant 0 <= low <= high <= |index|
      invariant IndexSorted(index) ==> forall i | 0 <= i < low :: Less(index[i].0, key)
      invariant IndexSorted(index) ==> forall i | high <= i < |index| :: Less(key, index[i].0)
    {
      LessIsStrictTotal();
      var mid := (low + high) / 2;
      if index[mid].0 == key {
        return Found(mid);
      } else if Less(index[mid].0, key) {
        low := mid + 1;
      } else {
        high := mid;
      }
    }
    r := Insert(low);
  }

  /** A record scan that starts at record `from` finds what a search of the whole table finds. */
  ghost predicate StartsAt(t: Table, key: Bytes, from: nat) {
    from <= |t| && Lookup(t, key) == Lookup(t[from..], key)
  }

  lemma {:induction false} LookupSkips(t: Table, key: Bytes, from: nat)
    requires from <= |t| && forall i | 0 <= i < from :: t[i].key != key
    ensures StartsAt(t, key, from)
  {
    if from > 0 {
      LookupSkips(t[1..], key, from - 1);
      assert t[1..][from - 1..] == t[from..];
    } else {
      assert t[0..] == t;
    }
  }

  lemma {:induction false} LookupStops(t: Table, key: Bytes)
    requires Sorted(t) && t != [] && Less(key, t[0].key)
    ensures Lookup(t, key).None?
  {
    hide Less;
    LessIsStrictTotal();
    forall i | 0 <= i < |t| ensures t[i].key != key {
      assert i == 0 || Less(t[0].key, t[i].key);
    }
    LookupIffHasKey(t, key);
  }

  /** One step of the scan: a smaller key is skipped, an equal one found, a larger one ends it. */
  lemma ScanStep(t: Table, key: Bytes, j: nat)
    requires Sorted(t) && j < |t| && StartsAt(t, key, j)
    ensures t[j].key == key ==> Lookup(t, key) == Some(t[j].value)
    ensures Less(key, t[j].key) ==> Lookup(t, key) == None
    ensures t[j].key != key && !Less(key, t[j].key) ==> StartsAt(t, key, j + 1)
  {
    hide Less;
    assert t[j..][1..] == t[j + 1..];
    if Less(key, t[j].key) {
      LookupStops(t[j..], key);
    }
  }

  /** The record after which the scan from checkpoint `i` cannot continue. */
  ghost function LastRead(t: Table, i: nat): nat
    requires i < |Marks(t)|
  {
    if i + 1 < |Marks(t)| then Marks(t)[i + 1] else |t| - 1
  }

  ghost predicate SizesAtMost(t: Table, largest: nat) {
    forall i | 0 <= i < |t| :: RecordSize(t[i]) <= largest
  }

  /** From one checkpoint up to and including the next one: at most 4095 bytes plus two records. */
  lemma ScanBound(t: Table, i: nat, j: nat, largest: nat)
    requires i < |Marks(t)| && SizesAtMost(t, largest)
    requires Marks(t)[i] <= j <= LastRead(t, i)
    ensures j < |t| && Span(t, Marks(t)[i], j + 1) <= 4095 + 2 * largest
  {
    hide Marks, Data, Span;
    MarksAreGood(t);
    var from, last := Marks(t)[i], LastRead(t, i);
    SpanOne(t, last);
    SpanAdds(t, from, last, last + 1);
    SpanAdds(t, from, j + 1, last + 1);
    if i + 1 < |Marks(t)| {
      assert GapIsTight(t, from, last);
      SpanOne(t, last - 1);
      SpanAdds(t, from, last - 1, last);
    }
  }

  /** The lookup of `key` may start at checkpoint `i` and is decided by record `LastRead`. */
  lemma StartOfLookup(t: Table, key: Bytes, i: nat)
    requires Sorted(t) && i < |Marks(t)|
    requires AtMost(t[Marks(t)[i]].key, key)
    requires i + 1 < |Marks(t)| ==> Less(key, t[Marks(t)[i + 1]].key)
    ensures StartsAt(t, key, Marks(t)[i])
    ensures i + 1 < |Marks(t)| ==> Less(key, t[LastRead(t, i)].key)
    ensures Marks(t)[i] <= LastRead(t, i)
  {
    hide Marks, Less, Lookup;
    LessIsStrictTotal();
    MarksAreGood(t);
    LookupSkips(t, key, Marks(t)[i]);
  }

  lemma IndexOfSorted(t: Table)
    requires Sorted(t)
    ensures IndexSorted(Index(t))
    ensures t != [] ==> Index(t) != [] && Index(t)[0].0 == t[0].key
  {
    hide Marks, Less, Data;
    MarksAreGood(t);
    forall i, j | 0 <= i < j < |Index(t)| ensures Less(Index(t)[i].0, Index(t)[j].0) {
      assert Less(t[Marks(t)[i]].key, t[Marks(t)[j]].key);
    }
  }

  /** A key below the first checkpoint is below the first record. */
  lemma BeforeFirst(t: Table, key: Bytes)
    requires Sorted(t)
    requires forall i | 0 <= i < |Index(t)| :: Less(key, Index(t)[i].0)
    ensures Lookup(t, key).None?
  {
    hide Index, Less;
    IndexOfSorted(t);
    if t != [] {
      LookupStops(t, key);
    }
  }

  lemma SpanGrows(t: Table, j: nat)
    requires j <= |t|
    ensures Span(t, 0, j) < |Data(t)| <==> j < |t|
  {
    hide Data, Span;
    SpanAll(t);
    if j < |t| {
      SpanAdds(t, 0, j, |t|);
      SpanAdds(t, j, j + 1, |t|);
      SpanOne(t, j);
    }
  }

  /** A file of n data bytes has at most n / 4096 + 1 checkpoints. */
  lemma {:induction false} IndexIsSparse(t: Table)
    ensures |Index(t)| <= |Data(t)| / 4096 + 1
  {
    hide Data, Marks, Span;
    if Marks(t) != [] {
      var last := |Marks(t)| - 1;
      MarksSpread(t, last);
      SpanAll(t);
      SpanAdds(t, Marks(t)[0], Marks(t)[last], |t|);
      MarksAreGood(t);
    }
  }

  lemma {:induction false} MarksSpread(t: Table, i: nat)
    requires i < |Marks(t)|
    ensures Marks(t)[0] <= Marks(t)[i] && Span(t, Marks(t)[0], Marks(t)[i]) >= i * CHECKPOINT_BYTES
  {
    hide Marks, Span;
    MarksAreGood(t);
    if i > 0 {
      MarksSpread(t, i - 1);
      assert GapIsTight(t, Marks(t)[i - 1], Marks(t)[i]);
      SpanAdds(t, Marks(t)[0], Marks(t)[i - 1], Marks(t)[i]);
    }
  }

  // ---------- opening ----------

  lemma ParseIndexStep(block: Bytes)
    requires block != []
    ensures |block| < 4 ==> ParseIndex(block).None?
    ensures |block| >= 4 ==>
              var keyEnd := 4 + FromLe(block[..4]);
              ParseIndex(block) ==
              if |block| < keyEnd + 8 then None
              else Prepend([(block[4..keyEnd], FromLe(block[keyEnd..keyEnd + 8]))], ParseIndex(block[keyEnd + 8..]))
  {
    hide FromLe;
  }

  /** The index loop of `open`; a missing value is the panic of an out-of-range slice. */
  method ReadIndex(block: Bytes) returns (r: Option<seq<(Bytes, nat)>>)
    ensures r == ParseIndex(block)
  {
    hide FromLe, ParseIndex;
    var index := [];
    var pos := 0;
    assert block[0..] == block;
    Prepended([], [], ParseIndex(block));
    while pos < |block|
      invariant pos <= |block|
      invariant ParseIndex(block) == Prepend(index, ParseIndex(block[pos..]))
    {
      ParseIndexStep(block[pos..]);
      if |block| < pos + 4 {
        return None;
      }
      var keyLen := FromLe(block[pos..pos + 4]);
      assert block[pos..][..4] == block[pos..pos + 4];
      pos := pos + 4;
      if |block| < pos + keyLen + 8 {
        return None;
      }
      var key := block[pos..pos + keyLen];
      pos := pos + keyLen;
      var offset := FromLe(block[pos..pos + 8]);
      pos := pos + 8;
      index := index + [(key, offset)];
      ghost var start := pos - (12 + keyLen);
      assert block[start..][4..4 + keyLen] == key;
      assert block[start..][4 + keyLen..4 + keyLen + 8] == block[pos - 8..pos];
      assert block[start..][4 + keyLen + 8..] == block[pos..];
      Prepended(index[..|index| - 1], [(key, offset)], ParseIndex(block[pos..]));
      assert index[..|index| - 1] + [(key, offset)] == index;
    }
    assert block[pos..] == [] && index + [] == index;
    assert ParseIndex([]) == Some([]) by { EmptyIndex(); }
    r := Some(index);
  }

  function Prepend<T>(front: seq<T>, rest: Option<seq<T>>): Option<seq<T>> {
    if rest.None? then None else Some(front + rest.value)
  }

  lemma Prepended<T>(a: seq<T>, b: seq<T>, rest: Option<seq<T>>)
    ensures Prepend(a, Prepend(b, rest)) == Prepend(a + b, rest)
    ensures Prepend([], rest) == rest
  {
    if rest.Some? {
      assert a + (b + rest.value) == a + b + rest.value;
      assert [] + rest.value == rest.value;
    }
  }

  lemma EmptyIndex()
    ensures ParseIndex([]) == Some([])
  {
  }

  class SsTableReader {
    const file: Bytes
    const index: seq<(Bytes, nat)>
    const dataEnd: nat
    const filter: BloomFilter

    ghost predicate Has(h: Handle)
      reads this, filter, filter.bits
    {
      index == h.index && dataEnd == h.dataEnd && filter.bits[..] == h.bits && filter.k == h.k && filter.m == h.m
    }

    /** This reader has opened a file that holds the sorted table `t`. */
    ghost predicate Holds(t: Table)
      reads this, filter, filter.bits
    {
      && filter.Valid()
      && Sorted(t) && RecordsFit(t)
      && index == Index(t)
      && dataEnd == |Data(t)| <= |file| && file == Data(t) + file[dataEnd..]
      && (forall i | 0 <= i < |t| :: MayContain(filter.bits[..], filter.Params(), t[i].key))
    }

    constructor (file: Bytes, index: seq<(Bytes, nat)>, dataEnd: nat, filter: BloomFilter)
      ensures this.file == file && this.index == index && this.dataEnd == dataEnd && this.filter == filter
    {
      this.file, this.index, this.dataEnd, this.filter := file, index, dataEnd, filter;
    }

    /** `open` on any byte string. */
    static method Open(file: Bytes) returns (outcome: OpenOutcome, reader: SsTableReader?)
      ensures outcome == OpenFile(file)
      ensures outcome.Opened? ==> reader != null && fresh(reader) && fresh(reader.filter) && fresh(reader.filter.bits)
      ensures outcome.Opened? ==> reader.file == file && reader.Has(outcome.handle)
    {
      hide FromLe, ParseIndex;
      if |file| < 32 {
        return Failed, null;
      }
      var footer := file[|file| - 32..];
      var filterOffset, filterLen := FromLe(footer[0..8]), FromLe(footer[8..16]);
      var indexOffset, indexLen := FromLe(footer[16..24]), FromLe(footer[24..32]);
      if !Readable(file, filterOffset, filterLen) {
        return Failed, null;
      }
      var filterBytes := Section(file, filterOffset, filterLen);
      if |filterBytes| < 16 {
        return Panicked, null;
      }
      var filter := new BloomFilter.FromBytes(filterBytes);
      assert filterBytes[..8] == filterBytes[0..8];
      if !Readable(file, indexOffset, indexLen) {
        return Failed, null;
      }
      var index := ReadIndex(Section(file, indexOffset, indexLen));
      if index.None? {
        return Panicked, null;
      }
      reader := new SsTableReader(file, index.value, filterOffset, filter);
      outcome := Opened(Handle(index.value, filterOffset, filterBytes[16..], filter.k, filter.m));
    }

    /** Bloom check, binary search, forward scan: the raw record of `key`, tombstones included.
        `t` is the table the file holds, if it holds one; `scanned` counts the bytes read. */
    method GetRaw(key: Bytes, ghost t: Table, ghost largest: nat)
      returns (r: Result<Option<Bytes>, SsTableError>, ghost scanned: nat)
      requires filter.Valid()
      ensures Holds(t) ==> r == Ok(Lookup(t, key))
      ensures Holds(t) && SizesAtMost(t, largest) ==> scanned <= 4095 + 2 * largest
    {
      hide Less, Data, Marks, ReadRecord, Lookup, MayContain, Index, Sorted, RecordsFit, ScanAt;
      ghost var good := Holds(t);
      scanned := 0;
      var maybe := filter.Contains(key);
      if !maybe {
        if good {
          NotContained(t, key);
        }
        return Ok(None), 0;
      }
      var search := BinarySearch(index, key);
      if good {
        IndexOfSorted(t);
      }
      if search == Insert(0) {
        if good {
          BeforeFirst(t, key);
        }
        return Ok(None), 0;
      }
      var at := if search.Found? then search.at else search.at - 1;
      if good {
        StartOfSearch(t, key, search);
      }
      r, scanned := ScanForward(key, index[at].1, t, at, largest);
    }

    /** The forward scan of a lookup, from the byte offset of checkpoint `at`. */
    method ScanForward(key: Bytes, start: nat, ghost t: Table, ghost at: nat, ghost largest: nat)
      returns (r: Result<Option<Bytes>, SsTableError>, ghost scanned: nat)
      requires Holds(t) ==> at < |Marks(t)| && ScanAt(t, key, at, Marks(t)[at], start)
      ensures Holds(t) ==> r == Ok(Lookup(t, key))
      ensures Holds(t) && SizesAtMost(t, largest) ==> scanned <= 4095 + 2 * largest
    {
      hide Less, Data, Marks, ReadRecord, Lookup, MayContain, Index, Sorted, RecordsFit, ScanAt, SizesAtMost;
      ghost var good := Holds(t);
      ghost var j := if good then Marks(t)[at] else 0;
      if good {
        ScanStarts(t, key, at, j, start);
      }
      var pos := start;
      while pos < dataEnd
        invariant start <= pos
        invariant good ==> at < |Marks(t)| && ScanAt(t, key, at, j, pos) && Span(t, 0, Marks(t)[at]) == start
        invariant good && SizesAtMost(t, largest) ==> pos - start <= CHECKPOINT_BYTES - 1 + 2 * largest
        decreases dataEnd - pos
      {
        var read := ReadRecord(file, pos);
        if good {
          ScanReads(t, key, at, j, pos, file[dataEnd..], start, largest);
        }
        if read.None? {
          return Err(Io), pos - start;
        }
        var record := read.value;
        pos := pos + RecordSize(record);
        if record.key == key {
          return Ok(Some(record.value)), pos - start;
        } else if Less(key, record.key) {
          return Ok(None), pos - start;
        }
        j := j + 1;
      }
      if good {
        ScanEnds(t, key, at, j, pos);
      }
      return Ok(None), pos - start;
    }

    /** `get`: like `GetRaw`, but a tombstone reads as absent. */
    method Get(key: Bytes, ghost t: Table) returns (r: Result<Option<Bytes>, SsTableError>)
      requires filter.Valid()
      ensures Holds(t) ==> r == Ok(Live(Lookup(t, key)))
    {
      ghost var scanned;
      var raw;
      raw, scanned := GetRaw(key, t, 0);
      match raw {
        case Ok(Some(value)) =>
          r := if value == TOMBSTONE then Ok(None) else raw;
        case _ =>
          r := raw;
      }
    }

    method Iter() returns (it: SsTableIter)
      ensures fresh(it) && it.file == file && it.pos == 0 && it.dataEnd == dataEnd
    {
      it := new SsTableIter(file, dataEnd);
    }

    lemma NotContained(t: Table, key: Bytes)
      requires Holds(t) && !MayContain(filter.bits[..], filter.Params(), key)
      ensures Lookup(t, key).None?
    {
      hide MayContain, Data, Index;
      LookupIffHasKey(t, key);
    }
  }

  lemma StartOfSearch(t: Table, key: Bytes, search: SearchResult)
    requires Sorted(t) && search.at <= |Index(t)| && search != Insert(0)
    requires search.Found? ==> search.at < |Index(t)| && Index(t)[search.at].0 == key
    requires search.Insert? ==>
               && (forall i | 0 <= i < search.at :: Less(Index(t)[i].0, key))
               && (forall i | search.at <= i < |Index(t)| :: Less(key, Index(t)[i].0))
    ensures var at := if search.Found? then search.at else search.at - 1;
            && at < |Marks(t)|
            && ScanAt(t, key, at, Marks(t)[at], Index(t)[at].1)
  {
    hide Marks, Less, Data;
    var at := if search.Found? then search.at else search.at - 1;
    LessIsStrictTotal();
    MarksAreGood(t);
    assert Index(t)[at].0 == t[Marks(t)[at]].key;
    if at + 1 < |Marks(t)| {
      assert Index(t)[at + 1].0 == t[Marks(t)[at + 1]].key;
    }
    StartOfLookup(t, key, at);
    assert t[0..Marks(t)[at]] == t[..Marks(t)[at]];
  }

  /** A forward scan from checkpoint `at` that stands before record `j`, at byte `pos`. */
  ghost predicate ScanAt(t: Table, key: Bytes, at: nat, j: nat, pos: nat)
    requires at < |Marks(t)|
  {
    && Marks(t)[at] <= j <= |t| && pos == Span(t, 0, j)
    && StartsAt(t, key, j)
    && (j < |t| ==> j <= LastRead(t, at))
    && (at + 1 < |Marks(t)| ==> LastRead(t, at) < |t| && Less(key, t[LastRead(t, at)].key))
  }

  lemma ScanStarts(t: Table, key: Bytes, at: nat, j: nat, pos: nat)
    requires at < |Marks(t)| && ScanAt(t, key, at, j, pos)
    ensures pos == Span(t, 0, j)
  {
  }

  /** Reading one record keeps the scan's state, or decides the lookup. */
  lemma {:induction false} ScanReads(t: Table, key: Bytes, at: nat, j: nat, pos: nat, after: Bytes, start: nat,
                                     largest: nat)
    requires Sorted(t) && RecordsFit(t) && at < |Marks(t)| && ScanAt(t, key, at, j, pos) && pos < |Data(t)|
    ensures j < |t| && ReadRecord(Data(t) + after, pos) == Some(t[j])
    ensures t[j].key == key ==> Lookup(t, key) == Some(t[j].value)
    ensures Less(key, t[j].key) ==> Lookup(t, key) == None
    ensures t[j].key != key && !Less(key, t[j].key) ==> ScanAt(t, key, at, j + 1, pos + RecordSize(t[j]))
    ensures Span(t, 0, Marks(t)[at]) == start && SizesAtMost(t, largest) ==>
              pos + RecordSize(t[j]) - start <= CHECKPOINT_BYTES - 1 + 2 * largest
  {
    hide Data, Marks, Less, Lookup, ReadRecord, Span, SizesAtMost, Sorted, RecordsFit;
    SpanGrows(t, j);
    ReadRecordOfData(t, j, after);
    ScanStep(t, key, j);
    SpanAdds(t, 0, Marks(t)[at], j + 1);
    if SizesAtMost(t, largest) {
      ScanBound(t, at, j, largest);
    }
  }

  lemma {:induction false} ScanEnds(t: Table, key: Bytes, at: nat, j: nat, pos: nat)
    requires at < |Marks(t)| && ScanAt(t, key, at, j, pos) && pos >= |Data(t)|
    ensures Lookup(t, key).None?
  {
    hide Data, Marks, Less, Span;
    SpanGrows(t, j);
    assert t[|t|..] == [];
  }

  /** `SsTableIter`: one record per call until the end of the data section. */
  class SsTableIter {
    const file: Bytes
    const dataEnd: nat
    var pos: nat

    constructor (file: Bytes, dataEnd: nat)
      ensures this.file == file && this.dataEnd == dataEnd && pos == 0
    {
      this.file, this.dataEnd, pos := file, dataEnd, 0;
    }

    /** The records still to come. */
    ghost function Rest(): Table
      reads this
    {
      Scan(file, pos, dataEnd)
    }

    method Next() returns (r: Option<Record>)
      modifies this
      ensures r.None? <==> old(Rest()) == []
      ensures r.Some? ==> r.value == old(Rest())[0] && Rest() == old(Rest())[1..]
      ensures r.None? ==> Rest() == []
    {
      hide ReadRecord;
      if pos >= dataEnd {
        return None;
      }
      r := ReadRecord(file, pos);
      if r.Some? {
        pos := pos + RecordSize(r.value);
      }
    }
  }

  /** Opening a finished file gives a reader that holds exactly the records that were added. */
  lemma OpenedFileHolds(reader: SsTableReader, t: Table, s: FilterShape)
    requires FileFits(t, s) && Sorted(t)
    requires reader.file == FileBytes(t, s) && OpenFile(reader.file).Opened? && reader.Has(OpenFile(reader.file).handle)
    ensures reader.Holds(t)
  {
    hide FileBytes, OpenFile, Data, Index, FilterOf, MayContain, Pow256;
    OpenOfFileBytes(t, s);
    FileIsDataFirst(t, s);
    FileFitsRecords(t, s);
    forall i | 0 <= i < |t| ensures MayContain(FilterOf(Keys(t), s), s, t[i].key) {
      assert Keys(t)[i] == t[i].key;
      NoFalseNegatives(Keys(t), s, t[i].key);
    }
  }
}
