/** The SSTable file: data section, filter section, sparse index and footer. */
module SsTableFormat {
  import opened Wrappers
  import opened Bytes
  import opened Tables
  import opened Bloom

  const CHECKPOINT_BYTES: nat := 4096

  // ---------- the data section ----------

  function RecordSize(r: Record): nat { 8 + |r.key| + |r.value| }

  function EncodeRecord(r: Record): (bytes: Bytes)
    ensures |bytes| == RecordSize(r)
  {
    ToLe(|r.key|, 4) + r.key + ToLe(|r.value|, 4) + r.value
  }

  function Data(t: Table): Bytes {
    if t == [] then [] else EncodeRecord(t[0]) + Data(t[1..])
  }

  predicate RecordFits(r: Record) {
    |r.key| < Pow256(4) && |r.value| < Pow256(4)
  }

  predicate RecordsFit(t: Table) {
    forall i | 0 <= i < |t| :: RecordFits(t[i])
  }

  lemma {:induction false} DataConcat(a: Table, b: Table)
    ensures Data(a + b) == Data(a) + Data(b)
  {
    hide EncodeRecord;
    if a == [] {
      assert a + b == b;
    } else {
      assert (a + b)[1..] == a[1..] + b;
      DataConcat(a[1..], b);
    }
  }

  lemma DataOne(r: Record)
    ensures Data([r]) == EncodeRecord(r)
  {
    hide EncodeRecord;
    assert [r][1..] == [];
    assert EncodeRecord(r) + [] == EncodeRecord(r);
  }

  /** Byte length of records `i..j`. */
  function Span(t: Table, i: nat, j: nat): nat
    requires i <= j <= |t|
  {
    |Data(t[i..j])|
  }

  lemma SpanAdds(t: Table, i: nat, j: nat, k: nat)
    requires i <= j <= k <= |t|
    ensures Span(t, i, k) == Span(t, i, j) + Span(t, j, k)
  {
    assert t[i..k] == t[i..j] + t[j..k];
    DataConcat(t[i..j], t[j..k]);
  }

  lemma SpanOne(t: Table, i: nat)
    requires i < |t|
    ensures Span(t, i, i + 1) == RecordSize(t[i])
  {
    assert t[i..i + 1] == [t[i]];
    DataOne(t[i]);
  }

  // ---------- the sparse index ----------

  /** Bytes written since the last of `marks`. */
  function SinceMark(t: Table, marks: seq<nat>): nat
    requires forall i | 0 <= i < |marks| :: marks[i] < |t|
  {
    if marks == [] then 0 else Span(t, marks[|marks| - 1], |t|)
  }

  /** The records that get a checkpoint: the first, and any that starts 4096 or more bytes
      after the previous checkpoint. */
  function Marks(t: Table): (marks: seq<nat>)
    ensures t != [] ==> marks != []
    ensures forall i | 0 <= i < |marks| :: marks[i] < |t|
    decreases |t|
  {
    if t == [] then [] else
    var earlier := t[..|t| - 1];
    var marks := Marks(earlier);
    if marks == [] || SinceMark(earlier, marks) >= CHECKPOINT_BYTES then marks + [|t| - 1] else marks
  }

  /** `bytes_since_last_index` after adding `t`. */
  function Since(t: Table): nat {
    SinceMark(t, Marks(t))
  }

  function IndexEntry(t: Table, mark: nat): (Bytes, nat)
    requires mark < |t|
  {
    (t[mark].key, |Data(t[..mark])|)
  }

  function Index(t: Table): seq<(Bytes, nat)> {
    seq(|Marks(t)|, i requires 0 <= i < |Marks(t)| => IndexEntry(t, Marks(t)[i]))
  }

  function EncodeIndex(index: seq<(Bytes, nat)>): Bytes {
    if index == [] then [] else
    ToLe(|index[0].0|, 4) + index[0].0 + ToLe(index[0].1, 8) + EncodeIndex(index[1..])
  }

  /** The first record boundary at or beyond 4096 bytes from `mark` is `next`. */
  ghost predicate GapIsTight(t: Table, mark: nat, next: nat)
    requires mark < next <= |t|
  {
    Span(t, mark, next) >= CHECKPOINT_BYTES && Span(t, mark, next - 1) < CHECKPOINT_BYTES
  }

  /** Checkpoints start with the first record, increase, and are at least 4096 bytes apart, but
      the records strictly between two of them never reach 4096 bytes. */
  ghost predicate GoodMarks(t: Table, marks: seq<nat>) {
    && (t != [] ==> marks != [] && marks[0] == 0)
    && (forall i | 0 <= i < |marks| :: marks[i] < |t|)
    && (forall i, j | 0 <= i < j < |marks| :: marks[i] < marks[j])
    && (forall i | 0 <= i < |marks| - 1 :: GapIsTight(t, marks[i], marks[i + 1]))
    && (marks != [] ==> Span(t, marks[|marks| - 1], |t| - 1) < CHECKPOINT_BYTES)
  }

  lemma SpanOfPrefix(t: Table, r: Record, i: nat, j: nat)
    requires i <= j <= |t|
    ensures Span(t + [r], i, j) == Span(t, i, j)
  {
    hide Data;
    assert (t + [r])[i..j] == t[i..j];
  }

  lemma SpanOfAppend(t: Table, r: Record, i: nat)
    requires i <= |t|
    ensures Span(t + [r], i, |t| + 1) == Span(t, i, |t|) + RecordSize(r)
  {
    hide Data;
    var u := t + [r];
    SpanAdds(u, i, |t|, |u|);
    SpanOne(u, |t|);
    SpanOfPrefix(t, r, i, |t|);
  }

  lemma GapsOfPrefix(t: Table, r: Record, marks: seq<nat>)
    requires GoodMarks(t, marks)
    ensures forall i | 0 <= i < |marks| - 1 :: GapIsTight(t + [r], marks[i], marks[i + 1])
  {
    hide Span;
    forall i | 0 <= i < |marks| - 1 ensures GapIsTight(t + [r], marks[i], marks[i + 1]) {
      assert GapIsTight(t, marks[i], marks[i + 1]);
      SpanOfPrefix(t, r, marks[i], marks[i + 1]);
      SpanOfPrefix(t, r, marks[i], marks[i + 1] - 1);
    }
  }

  /** One more record without a checkpoint. */
  lemma GoodMarksKept(t: Table, r: Record, marks: seq<nat>)
    requires GoodMarks(t, marks) && marks != [] && SinceMark(t, marks) < CHECKPOINT_BYTES
    ensures GoodMarks(t + [r], marks)
  {
    hide Span, GapIsTight;
    GapsOfPrefix(t, r, marks);
    SpanOfPrefix(t, r, marks[|marks| - 1], |t|);
  }

  /** One more record, with a checkpoint. */
  lemma GoodMarksPushed(t: Table, r: Record, marks: seq<nat>)
    requires GoodMarks(t, marks)
    requires t == [] || SinceMark(t, marks) >= CHECKPOINT_BYTES
    ensures GoodMarks(t + [r], marks + [|t|])
  {
    hide Span, GapIsTight;
    var u, pushed := t + [r], marks + [|t|];
    GapsOfPrefix(t, r, marks);
    EmptySpan(u, |t|);
    if marks != [] {
      LastGap(t, r, marks[|marks| - 1]);
    }
    forall i | 0 <= i < |pushed| - 1 ensures GapIsTight(u, pushed[i], pushed[i + 1]) {
      assert i < |marks| - 1 ==> GapIsTight(u, marks[i], marks[i + 1]);
    }
  }

  lemma LastGap(t: Table, r: Record, mark: nat)
    requires mark < |t| && Span(t, mark, |t|) >= CHECKPOINT_BYTES && Span(t, mark, |t| - 1) < CHECKPOINT_BYTES
    ensures GapIsTight(t + [r], mark, |t|)
  {
    hide Span;
    SpanOfPrefix(t, r, mark, |t|);
    SpanOfPrefix(t, r, mark, |t| - 1);
  }

  lemma EmptySpan(t: Table, i: nat)
    requires i <= |t|
    ensures Span(t, i, i) == 0
  {
  }

  lemma {:induction false} MarksAreGood(t: Table)
    ensures GoodMarks(t, Marks(t))
    decreases |t|
  {
    hide GoodMarks, SinceMark;
    if t != [] {
      var n := |t| - 1;
      var marks := Marks(t[..n]);
      MarksAreGood(t[..n]);
      assert t == t[..n] + [t[n]];
      if marks == [] || SinceMark(t[..n], marks) >= CHECKPOINT_BYTES {
        GoodMarksPushed(t[..n], t[n], marks);
      } else {
        GoodMarksKept(t[..n], t[n], marks);
      }
    } else {
      EmptyMarks();
    }
  }

  /** In bytes: between two neighbouring checkpoints lie at least 4096 bytes of records, and without the last of
      these records fewer; after the last checkpoint, too, fewer come before the last record. */
  lemma CheckpointEvery4096(t: Table, i: nat)
    requires i < |Marks(t)|
    ensures var marks := Marks(t);
            if i + 1 < |marks|
            then marks[i] < marks[i + 1] && |Data(t[marks[i]..marks[i + 1]])| >= 4096 &&
                 |Data(t[marks[i]..marks[i + 1] - 1])| < 4096
            else |Data(t[marks[i]..|t| - 1])| < 4096
  {
    hide Marks, Data;
    MarksAreGood(t);
    var marks := Marks(t);
    if i + 1 < |marks| {
      assert GapIsTight(t, marks[i], marks[i + 1]);
    }
  }

  lemma EmptyMarks()
    ensures GoodMarks([], [])
  {
  }

  /** Adding a record: the updates the writer makes to its index and its byte count. */
  lemma {:induction false} MarksOfAppend(t: Table, r: Record)
    ensures Marks(t + [r]) == if t == [] || Since(t) >= CHECKPOINT_BYTES then Marks(t) + [|t|] else Marks(t)
    ensures Since(t + [r]) == (if t == [] || Since(t) >= CHECKPOINT_BYTES then 0 else Since(t)) + RecordSize(r)
  {
    hide Marks, SinceMark;
    MarksStep(t, r);
    if t == [] || Since(t) >= CHECKPOINT_BYTES {
      SinceMarkPushed(t, r, Marks(t));
    } else {
      SinceMarkKept(t, r, Marks(t));
    }
  }

  lemma SinceMarkPushed(t: Table, r: Record, marks: seq<nat>)
    requires forall i | 0 <= i < |marks| :: marks[i] < |t|
    ensures SinceMark(t + [r], marks + [|t|]) == RecordSize(r)
  {
    hide Data, Span;
    SpanOfAppend(t, r, |t|);
    EmptySpan(t, |t|);
  }

  lemma SinceMarkKept(t: Table, r: Record, marks: seq<nat>)
    requires marks != [] && forall i | 0 <= i < |marks| :: marks[i] < |t|
    ensures SinceMark(t + [r], marks) == SinceMark(t, marks) + RecordSize(r)
  {
    hide Data, Span;
    SpanOfAppend(t, r, marks[|marks| - 1]);
  }

  lemma MarksStep(t: Table, r: Record)
    ensures Marks(t + [r]) == if t == [] || Since(t) >= CHECKPOINT_BYTES then Marks(t) + [|t|] else Marks(t)
  {
    hide SinceMark;
    assert (t + [r])[..|t|] == t;
  }

  lemma IndexOfAppend(t: Table, r: Record)
    ensures Index(t + [r]) ==
            if t == [] || Since(t) >= CHECKPOINT_BYTES then Index(t) + [(r.key, |Data(t)|)] else Index(t)
  {
    hide Data, Marks, Since;
    var u := t + [r];
    MarksOfAppend(t, r);
    forall i | 0 <= i < |t| ensures IndexEntry(u, i) == IndexEntry(t, i) {
      assert u[..i] == t[..i];
    }
    assert u[..|t|] == t;
    if t == [] || Since(t) >= CHECKPOINT_BYTES {
      assert Index(u) == Index(t) + [(r.key, |Data(t)|)];
    } else {
      assert Index(u) == Index(t);
    }
  }

  // ---------- the whole file ----------

  function Keys(t: Table): seq<Bytes> {
    seq(|t|, i requires 0 <= i < |t| => t[i].key)
  }

  function FilterBytes(t: Table, s: FilterShape): Bytes {
    ToBytesOf(FilterOf(Keys(t), s), s)
  }

  function Footer(filterOffset: nat, filterLen: nat, indexOffset: nat, indexLen: nat): (footer: Bytes)
    ensures |footer| == 32
  {
    ToLe(filterOffset, 8) + ToLe(filterLen, 8) + ToLe(indexOffset, 8) + ToLe(indexLen, 8)
  }

  /** The bytes `new`, one `add` per record of `t`, and `finish` leave under the final name. */
  function FileBytes(t: Table, s: FilterShape): Bytes {
    var data, filter, index := Data(t), FilterBytes(t, s), EncodeIndex(Index(t));
    data + filter + index + Footer(|data|, |filter|, |data| + |filter|, |index|)
  }

  /** Every length and offset of the file survives its fixed-width field. */
  predicate FileFits(t: Table, s: FilterShape) {
    RecordsFit(t) && |FileBytes(t, s)| < Pow256(8)
  }

  /** Where the fields of a record are. */
  lemma RecordLayout(r: Record)
    requires RecordFits(r)
    ensures var bytes, k := EncodeRecord(r), |r.key|;
            && |bytes| == 8 + k + |r.value|
            && FromLe(bytes[..4]) == k && bytes[4..4 + k] == r.key
            && FromLe(bytes[4 + k..8 + k]) == |r.value| && bytes[8 + k..] == r.value
  {
    hide ToLe, FromLe, Pow256;
    var bytes, k := EncodeRecord(r), |r.key|;
    FromLeToLe(k, 4);
    FromLeToLe(|r.value|, 4);
    assert bytes[..4] == ToLe(k, 4);
    assert bytes[4 + k..8 + k] == ToLe(|r.value|, 4);
  }

  /** Where the fields of an index entry are. */
  lemma IndexEntryLayout(key: Bytes, offset: nat, rest: seq<(Bytes, nat)>)
    requires |key| < Pow256(4) && offset < Pow256(8)
    ensures var bytes, k := EncodeIndex([(key, offset)] + rest), |key|;
            && |bytes| == 12 + k + |EncodeIndex(rest)|
            && FromLe(bytes[..4]) == k && bytes[4..4 + k] == key
            && FromLe(bytes[4 + k..12 + k]) == offset && bytes[12 + k..] == EncodeIndex(rest)
  {
    hide ToLe, FromLe, Pow256;
    var index, k := [(key, offset)] + rest, |key|;
    assert index[1..] == rest;
    var bytes := EncodeIndex(index);
    assert bytes == ToLe(k, 4) + key + ToLe(offset, 8) + EncodeIndex(rest);
    hide EncodeIndex;
    FromLeToLe(k, 4);
    FromLeToLe(offset, 8);
    assert bytes[..4] == ToLe(k, 4);
    assert bytes[4 + k..12 + k] == ToLe(offset, 8);
  }

  /** Where the sections of a file are: data, filter, index, and a footer of four fields in the last 32 bytes. */
  lemma FileLayout(t: Table, s: FilterShape)
    requires FileFits(t, s)
    ensures var file, d, f, x := FileBytes(t, s), |Data(t)|, 16 + (s.m + 7) / 8, |EncodeIndex(Index(t))|;
            && |file| == d + f + x + 32
            && file[..d] == Data(t) && file[d + f..d + f + x] == EncodeIndex(Index(t))
            && FromLe(file[d..d + 8]) == s.k && FromLe(file[d + 8..d + 16]) == s.m
            && file[d + 16..d + f] == FilterOf(Keys(t), s)
            && FooterSays(file, d, f, d + f, x)
  {
    hide Pow256, Data, FilterOf, Index, EncodeIndex, FromLe, ToBytesOf, Footer;
    var data, filter, index := Data(t), FilterBytes(t, s), EncodeIndex(Index(t));
    var file := FileBytes(t, s);
    SerialisationRoundTrip(FilterOf(Keys(t), s), s);
    assert file == data + filter + index + Footer(|data|, |filter|, |data| + |filter|, |index|);
    assert |filter| == 16 + (s.m + 7) / 8;
    hide FileBytes, FilterBytes;
    SectionsOf(data, filter, index, Footer(|data|, |filter|, |data| + |filter|, |index|));
    FooterFields(|data|, |filter|, |data| + |filter|, |index|);
  }

  ghost predicate FooterSays(file: Bytes, filterOffset: nat, filterLen: nat, indexOffset: nat, indexLen: nat) {
    && |file| >= 32
    && var footer := file[|file| - 32..];
       && FromLe(footer[0..8]) == filterOffset && FromLe(footer[8..16]) == filterLen
       && FromLe(footer[16..24]) == indexOffset && FromLe(footer[24..32]) == indexLen
  }

  lemma SectionsOf(a: Bytes, b: Bytes, c: Bytes, d: Bytes)
    requires |b| >= 16
    ensures var all, i, j := a + b + c + d, |a|, |a| + |b|;
            && all[..i] == a && all[j..j + |c|] == c && all[j + |c|..] == d
            && all[i..i + 8] == b[..8] && all[i + 8..i + 16] == b[8..16] && all[i + 16..j] == b[16..]
  {
  }

  // ---------- reading ----------

  /** One record at `pos`, or nothing when the file ends first. */
  function ReadRecord(file: Bytes, pos: nat): (r: Option<Record>)
    ensures r.Some? ==> pos + RecordSize(r.value) <= |file|
  {
    if |file| < pos + 4 then None else
    var keyEnd := pos + 4 + FromLe(file[pos..pos + 4]);
    if |file| < keyEnd + 4 then None else
    var valEnd := keyEnd + 4 + FromLe(file[keyEnd..keyEnd + 4]);
    if |file| < valEnd then None else
    Some(Record(file[pos + 4..keyEnd], file[keyEnd + 4..valEnd]))
  }

  /** A record is read, from any bytes whatever, exactly if its encoding is there. */
  lemma ReadRecordIff(file: Bytes, pos: nat, r: Record)
    ensures ReadRecord(file, pos) == Some(r) <==>
            RecordFits(r) && pos + RecordSize(r) <= |file| && file[pos..pos + RecordSize(r)] == EncodeRecord(r)
  {
    if RecordFits(r) && pos + RecordSize(r) <= |file| && file[pos..pos + RecordSize(r)] == EncodeRecord(r) {
      ReadRecordAt(file[..pos], r, file[pos + RecordSize(r)..]);
      assert file == file[..pos] + EncodeRecord(r) + file[pos + RecordSize(r)..];
    }
    if ReadRecord(file, pos) == Some(r) {
      ReadIsEncoding(file, pos, r);
    }
  }

  lemma ReadIsEncoding(file: Bytes, pos: nat, r: Record)
    requires ReadRecord(file, pos) == Some(r)
    ensures RecordFits(r) && pos + RecordSize(r) <= |file| && file[pos..pos + RecordSize(r)] == EncodeRecord(r)
  {
    hide ToLe, FromLe, Pow256;
    var keyEnd := pos + 4 + |r.key|;
    var valEnd := keyEnd + 4 + |r.value|;
    ToLeFromLe(file[pos..pos + 4]);
    ToLeFromLe(file[keyEnd..keyEnd + 4]);
    assert file[pos..valEnd] ==
           file[pos..pos + 4] + file[pos + 4..keyEnd] + file[keyEnd..keyEnd + 4] + file[keyEnd + 4..valEnd];
  }

  /** The records the iterator yields from `pos` on. */
  function Scan(file: Bytes, pos: nat, end: nat): Table
    decreases |file| - pos
  {
    if pos >= end then [] else
    var r := ReadRecord(file, pos);
    if r.None? then [] else [r.value] + Scan(file, pos + RecordSize(r.value), end)
  }

  lemma ReadRecordAt(before: Bytes, r: Record, after: Bytes)
    requires RecordFits(r)
    ensures ReadRecord(before + EncodeRecord(r) + after, |before|) == Some(r)
  {
    hide ToLe, FromLe, Pow256;
    var file, pos := before + EncodeRecord(r) + after, |before|;
    var keyEnd := pos + 4 + |r.key|;
    FromLeToLe(|r.key|, 4);
    FromLeToLe(|r.value|, 4);
    assert file[pos..pos + 4] == ToLe(|r.key|, 4);
    assert file[pos + 4..keyEnd] == r.key;
    assert file[keyEnd..keyEnd + 4] == ToLe(|r.value|, 4);
    assert file[keyEnd + 4..keyEnd + 4 + |r.value|] == r.value;
  }

  lemma DataAround(a: Table, r: Record, c: Table)
    ensures Data(a + [r] + c) == Data(a) + EncodeRecord(r) + Data(c)
  {
    hide EncodeRecord, Data;
    DataConcat(a + [r], c);
    DataConcat(a, [r]);
    DataOne(r);
  }

  lemma DataSplit(t: Table, i: nat)
    requires i < |t|
    ensures Data(t) == Data(t[0..i]) + EncodeRecord(t[i]) + Data(t[i + 1..])
  {
    hide EncodeRecord, Data;
    SplitAround(t, i);
    DataAround(t[0..i], t[i], t[i + 1..]);
  }

  lemma SplitAround<T>(s: seq<T>, i: nat)
    requires i < |s|
    ensures s[0..i] + [s[i]] + s[i + 1..] == s
  {
  }

  /** Record `i` of the data section is read back at its offset. */
  lemma {:induction false} ReadRecordOfData(t: Table, i: nat, after: Bytes)
    requires RecordsFit(t) && i < |t|
    ensures ReadRecord(Data(t) + after, Span(t, 0, i)) == Some(t[i])
    ensures Span(t, 0, i + 1) == Span(t, 0, i) + RecordSize(t[i])
  {
    hide EncodeRecord, ReadRecord, Data, RecordFits;
    DataSplit(t, i);
    Regroup(Data(t[0..i]), EncodeRecord(t[i]), Data(t[i + 1..]), after);
    ReadRecordAt(Data(t[0..i]), t[i], Data(t[i + 1..]) + after);
    SpanAdds(t, 0, i, i + 1);
    SpanOne(t, i);
  }

  lemma Regroup(a: Bytes, b: Bytes, c: Bytes, d: Bytes)
    ensures a + b + c + d == a + b + (c + d)
  {
  }

  lemma SpanAll(t: Table)
    ensures Span(t, 0, |t|) == |Data(t)|
  {
    assert t[0..|t|] == t;
  }

  /** Scanning the data section from record `i` yields the records from `i` on. */
  lemma {:induction false} ScanOfData(t: Table, i: nat, after: Bytes)
    requires RecordsFit(t) && i <= |t|
    ensures Scan(Data(t) + after, Span(t, 0, i), |Data(t)|) == t[i..]
    decreases |t| - i
  {
    hide Data, ReadRecord;
    SpanAll(t);
    if i < |t| {
      ReadRecordOfData(t, i, after);
      SpanAdds(t, 0, i + 1, |t|);
      ScanOfData(t, i + 1, after);
      assert t[i..] == [t[i]] + t[i + 1..];
    }
  }

  /** The entries of the index block; nothing when the block is cut inside an entry, where the
      slice operations of `open` panic. */
  function ParseIndex(block: Bytes): Option<seq<(Bytes, nat)>>
    decreases |block|
  {
    if block == [] then Some([]) else
    if |block| < 4 then None else
    var keyEnd := 4 + FromLe(block[..4]);
    if |block| < keyEnd + 8 then None else
    var rest := ParseIndex(block[keyEnd + 8..]);
    if rest.None? then None else
    Some([(block[4..keyEnd], FromLe(block[keyEnd..keyEnd + 8]))] + rest.value)
  }

  predicate IndexFits(index: seq<(Bytes, nat)>) {
    forall i | 0 <= i < |index| :: |index[i].0| < Pow256(4) && index[i].1 < Pow256(8)
  }

  lemma {:induction false} ParseOfEncodeIndex(index: seq<(Bytes, nat)>)
    requires IndexFits(index)
    ensures ParseIndex(EncodeIndex(index)) == Some(index)
  {
    hide ToLe, FromLe, Pow256;
    if index != [] {
      var (key, offset) := index[0];
      var block, keyEnd := EncodeIndex(index), 4 + |key|;
      FromLeToLe(|key|, 4);
      FromLeToLe(offset, 8);
      assert block[..4] == ToLe(|key|, 4) && block[4..keyEnd] == key;
      assert block[keyEnd..keyEnd + 8] == ToLe(offset, 8);
      assert block[keyEnd + 8..] == EncodeIndex(index[1..]);
      ParseOfEncodeIndex(index[1..]);
      assert index == [(key, offset)] + index[1..];
    }
  }

  /** An index block parses exactly if it is the encoding of an index. */
  lemma {:induction false} ParseIndexIff(block: Bytes, index: seq<(Bytes, nat)>)
    ensures ParseIndex(block) == Some(index) <==> IndexFits(index) && EncodeIndex(index) == block
  {
    hide Pow256;
    if IndexFits(index) && EncodeIndex(index) == block {
      ParseOfEncodeIndex(index);
    }
    if ParseIndex(block) == Some(index) {
      ParsedIsEncoding(block, index);
    }
  }

  lemma {:induction false} ParsedIsEncoding(block: Bytes, index: seq<(Bytes, nat)>)
    requires ParseIndex(block) == Some(index)
    ensures IndexFits(index) && EncodeIndex(index) == block
    decreases |block|
  {
    if block != [] {
      var keyEnd := 4 + FromLe(block[..4]);
      ParsedFirst(block, index, keyEnd);
      ParsedIsEncoding(block[keyEnd + 8..], index[1..]);
      hide ToLe, FromLe, Pow256, ParseIndex;
      assert index == [index[0]] + index[1..];
    }
  }

  /** The first entry of a block that parses. */
  lemma ParsedFirst(block: Bytes, index: seq<(Bytes, nat)>, keyEnd: nat)
    requires block != [] && ParseIndex(block) == Some(index) && keyEnd == 4 + FromLe(block[..4])
    ensures index != [] && keyEnd + 8 <= |block| && ParseIndex(block[keyEnd + 8..]) == Some(index[1..])
    ensures |index[0].0| < Pow256(4) && index[0].1 < Pow256(8)
    ensures block == ToLe(|index[0].0|, 4) + index[0].0 + ToLe(index[0].1, 8) + block[keyEnd + 8..]
  {
    hide ToLe, FromLe, Pow256;
    var rest := ParseIndex(block[keyEnd + 8..]);
    assert rest.Some? && index == [(block[4..keyEnd], FromLe(block[keyEnd..keyEnd + 8]))] + rest.value;
    hide ParseIndex;
    EntryParts(block, keyEnd);
  }

  lemma EntryParts(block: Bytes, keyEnd: nat)
    requires 4 <= keyEnd && keyEnd + 8 <= |block| && keyEnd == 4 + FromLe(block[..4])
    ensures keyEnd - 4 < Pow256(4) && FromLe(block[keyEnd..keyEnd + 8]) < Pow256(8)
    ensures block == ToLe(keyEnd - 4, 4) + block[4..keyEnd] + ToLe(FromLe(block[keyEnd..keyEnd + 8]), 8) +
                     block[keyEnd + 8..]
  {
    hide ToLe, FromLe, Pow256;
    ToLeFromLe(block[..4]);
    ToLeFromLe(block[keyEnd..keyEnd + 8]);
    assert block == block[..4] + block[4..keyEnd] + block[keyEnd..keyEnd + 8] + block[keyEnd + 8..];
  }

  /** What `open` keeps of a file. */
  datatype Handle = Handle(index: seq<(Bytes, nat)>, dataEnd: nat, bits: Bytes, k: nat, m: nat)

  datatype OpenOutcome = Opened(handle: Handle) | Failed | Panicked

  /** `seek` to `at` and `read_exact` of `n` bytes: reading nothing succeeds anywhere. */
  predicate Readable(file: Bytes, at: nat, n: nat) {
    n == 0 || at + n <= |file|
  }

  function Section(file: Bytes, at: nat, n: nat): Bytes
    requires Readable(file, at, n)
  {
    if n == 0 then [] else file[at..at + n]
  }

  /** `SsTableReader::open` on any byte string. */
  function OpenFile(file: Bytes): OpenOutcome {
    if |file| < 32 then Failed else
    var footer := file[|file| - 32..];
    var filterOffset, filterLen := FromLe(footer[0..8]), FromLe(footer[8..16]);
    var indexOffset, indexLen := FromLe(footer[16..24]), FromLe(footer[24..32]);
    if !Readable(file, filterOffset, filterLen) then Failed else
    var filter := Section(file, filterOffset, filterLen);
    if |filter| < 16 then Panicked else
    if !Readable(file, indexOffset, indexLen) then Failed else
    var index := ParseIndex(Section(file, indexOffset, indexLen));
    if index.None? then Panicked else
    Opened(Handle(index.value, filterOffset, filter[16..], FromLe(filter[0..8]), FromLe(filter[8..16])))
  }

  /** The index section named by the footer is the encoding of an index. */
  ghost predicate HoldsIndex(file: Bytes, at: nat, n: nat)
    requires Readable(file, at, n)
  {
    exists index :: IndexFits(index) && EncodeIndex(index) == (if n == 0 then [] else file[at..at + n])
  }

  /** A file opens exactly if its last 32 bytes name a filter section of at least 16 bytes and an index section, both
      inside the file, and the index section is the encoding of an index. Opening panics exactly if a section that
      can be read is no filter or no index. */
  lemma OpensIff(file: Bytes, filterOffset: nat, filterLen: nat, indexOffset: nat, indexLen: nat)
    requires FooterSays(file, filterOffset, filterLen, indexOffset, indexLen)
    ensures OpenFile(file).Opened? <==>
            && filterLen >= 16 && filterOffset + filterLen <= |file|
            && (indexLen == 0 || indexOffset + indexLen <= |file|) && HoldsIndex(file, indexOffset, indexLen)
    ensures OpenFile(file).Panicked? <==>
            && (filterLen == 0 || filterOffset + filterLen <= |file|)
            && (filterLen < 16 || ((indexLen == 0 || indexOffset + indexLen <= |file|) &&
                                   !HoldsIndex(file, indexOffset, indexLen)))
  {
    hide FromLe, ParseIndex, IndexFits, EncodeIndex;
    if Readable(file, indexOffset, indexLen) {
      var block := Section(file, indexOffset, indexLen);
      forall index ensures ParseIndex(block) == Some(index) <==> IndexFits(index) && EncodeIndex(index) == block {
        ParseIndexIff(block, index);
      }
    }
  }

  /** Anything shorter than a footer does not open. */
  lemma ShortFileFails(file: Bytes)
    requires |file| < 32
    ensures OpenFile(file).Failed? && TableOf(file) == []
  {
  }

  /** The records an opened file iterates over. */
  function TableOf(file: Bytes): Table {
    match OpenFile(file)
    case Opened(h) => Scan(file, 0, h.dataEnd)
    case _ => []
  }

  function HandleOf(t: Table, s: FilterShape): Handle {
    Handle(Index(t), |Data(t)|, FilterOf(Keys(t), s), s.k, s.m)
  }

  lemma IndexOfTableFits(t: Table)
    requires RecordsFit(t) && |Data(t)| < Pow256(8)
    ensures IndexFits(Index(t))
  {
    hide Pow256, Marks, Data;
    forall i | 0 <= i < |Index(t)| ensures Index(t)[i].1 < Pow256(8) {
      var mark := Marks(t)[i];
      assert t[0..mark] == t[..mark];
      SpanAll(t);
      SpanAdds(t, 0, mark, |t|);
    }
  }

  lemma FooterFields(a: nat, b: nat, c: nat, d: nat)
    requires a < Pow256(8) && b < Pow256(8) && c < Pow256(8) && d < Pow256(8)
    ensures var footer := Footer(a, b, c, d);
            FromLe(footer[0..8]) == a && FromLe(footer[8..16]) == b &&
            FromLe(footer[16..24]) == c && FromLe(footer[24..32]) == d
  {
    hide ToLe, FromLe, Pow256;
    var footer := Footer(a, b, c, d);
    FromLeToLe(a, 8);
    FromLeToLe(b, 8);
    FromLeToLe(c, 8);
    FromLeToLe(d, 8);
    assert footer[0..8] == ToLe(a, 8);
    assert footer[8..16] == ToLe(b, 8);
    assert footer[16..24] == ToLe(c, 8);
    assert footer[24..] == ToLe(d, 8);
    assert footer[24..32] == footer[24..];
  }

  /** Opening a finished file recovers the exact index, filter and end of data. */
  lemma OpenOfFileBytes(t: Table, s: FilterShape)
    requires FileFits(t, s)
    ensures OpenFile(FileBytes(t, s)) == Opened(HandleOf(t, s))
  {
    hide Pow256, Data, FilterOf, Index, EncodeIndex, ParseIndex, Footer, FromLe, ToBytesOf;
    var data, filter, index := Data(t), FilterBytes(t, s), EncodeIndex(Index(t));
    var file := FileBytes(t, s);
    var footer := Footer(|data|, |filter|, |data| + |filter|, |index|);
    FooterFields(|data|, |filter|, |data| + |filter|, |index|);
    assert file[|file| - 32..] == footer;
    SerialisationRoundTrip(FilterOf(Keys(t), s), s);
    assert Section(file, |data|, |filter|) == filter;
    assert filter[0..8] == filter[..8];
    IndexOfTableFits(t);
    ParseOfEncodeIndex(Index(t));
    assert |index| > 0 ==> file[|data| + |filter|..|data| + |filter| + |index|] == index;
    assert Section(file, |data| + |filter|, |index|) == index;
  }

  /** Round trip: a finished file iterates over exactly the records that were added, in order. */
  lemma TableOfFileBytes(t: Table, s: FilterShape)
    requires FileFits(t, s)
    ensures TableOf(FileBytes(t, s)) == t
  {
    hide FileFits, Scan, OpenFile, FileBytes;
    OpenOfFileBytes(t, s);
    FileIsDataFirst(t, s);
    var after := FileBytes(t, s)[|Data(t)|..];
    FileFitsRecords(t, s);
    ScanOfData(t, 0, after);
    assert t[0..] == t;
    EmptySpan(t, 0);
  }

  /** The data section is the front of the file, the footer its last 32 bytes. */
  lemma FileIsDataFirst(t: Table, s: FilterShape)
    ensures |Data(t)| <= |FileBytes(t, s)|
    ensures FileBytes(t, s) == Data(t) + FileBytes(t, s)[|Data(t)|..]
  {
    hide Data, FilterBytes, EncodeIndex, Footer;
  }

  lemma FileFitsRecords(t: Table, s: FilterShape)
    requires FileFits(t, s)
    ensures RecordsFit(t)
  {
  }
}
