/** Writing an SSTable: records in order, a checkpoint every 4096 bytes, one atomic rename. */
module SsTableWriter {
  import opened Bytes
  import opened Names
  import opened Storage
  import opened Tables
  import opened Bloom
  import opened SsTableFormat

  /** The sizing rule of `BloomFilter::new` at a fixed false-positive rate, left arbitrary. */
  type Sizing = nat -> FilterShape

  class SsTableWriter {
    var output: Bytes  // everything the buffered writer has accepted
    var index: seq<(Bytes, nat)>
    var bytesSinceLastIndex: nat
    var offset: nat
    const filter: BloomFilter
    var recordBuf: Bytes
    const finalPath: Name
    const tmpPath: Name

    ghost var added: Table

    ghost predicate Valid()
      reads this, filter, filter.bits
    {
      && filter.Valid()
      && output == Data(added)
      && index == Index(added)
      && bytesSinceLastIndex == Since(added)
      && offset == |Data(added)|
      && filter.bits[..] == FilterOf(Keys(added), filter.Params())
      && tmpPath == TmpName(finalPath)
    }

    constructor (disk: Disk, path: Name, expectedKeys: nat, sizing: Sizing)
      modifies disk
      ensures Valid() && fresh(filter) && fresh(filter.bits)
      ensures added == [] && filter.Params() == sizing(expectedKeys) && finalPath == path
      ensures disk.files == old(disk.files)[TmpName(path) := []]
    {
      output, index, bytesSinceLastIndex, offset, recordBuf := [], [], 0, 0, [];
      filter := new BloomFilter(sizing(expectedKeys));
      finalPath, tmpPath := path, TmpName(path);
      added := [];
      new;
      disk.files := disk.files[tmpPath := []];
    }

    method Add(key: Bytes, value: Bytes)
      requires Valid()
      modifies this, filter.bits
      ensures Valid() && added == old(added) + [Record(key, value)]
    {
      hide Data, EncodeRecord, Index, FilterOf, ToLe;
      ghost var record := Record(key, value);
      MarksOfAppend(added, record);
      IndexOfAppend(added, record);
      IndexIsEmpty(added);
      if index == [] || bytesSinceLastIndex >= CHECKPOINT_BYTES {
        index := index + [(key, offset)];
        bytesSinceLastIndex := 0;
      }
      FillRecordBuf(Record(key, value));
      output := output + recordBuf;
      var recordSize := |recordBuf|;
      offset := offset + recordSize;
      bytesSinceLastIndex := bytesSinceLastIndex + recordSize;
      filter.Insert(key);
      KeysOfAppend(added, record, filter.Params());
      DataConcat(added, [record]);
      DataOne(record);
      added := added + [record];
    }

    method FillRecordBuf(r: Record)
      modifies this`recordBuf
      ensures recordBuf == EncodeRecord(r)
    {
      hide ToLe;
      recordBuf := [];
      recordBuf := recordBuf + ToLe(|r.key|, 4);
      recordBuf := recordBuf + r.key;
      recordBuf := recordBuf + ToLe(|r.value|, 4);
      recordBuf := recordBuf + r.value;
    }

    method WriteIndex()
      modifies this`output
      ensures output == old(output) + EncodeIndex(index)
    {
      hide EncodeIndex, ToLe;
      assert index[0..] == index;
      for i := 0 to |index|
        invariant output + EncodeIndex(index[i..]) == old(output) + EncodeIndex(index)
      {
        ghost var before := output;
        var (key, at) := index[i];
        IndexHead(index[i..]);
        assert index[i..][1..] == index[i + 1..];
        output := output + ToLe(|key|, 4);
        output := output + key;
        output := output + ToLe(at, 8);
        Regrouped(before, ToLe(|key|, 4), key, ToLe(at, 8), EncodeIndex(index[i + 1..]));
      }
      IndexTail(index);
    }

    /** Appends filter, index and footer, then reveals the file under its final name. */
    method Finish(disk: Disk)
      requires Valid()
      modifies this, disk
      ensures disk.files == (old(disk.files) - {tmpPath})[finalPath := FileBytes(old(added), filter.Params())]
    {
      hide Data, FilterOf, Index, ToLe, ToBytesOf, EncodeIndex, Since;
      var filterOffset := offset;
      var filterBytes := filter.ToBytes();
      output := output + filterBytes;
      var filterLen := |filterBytes|;
      var indexOffset := filterOffset + filterLen;

      WriteIndex();
      var indexLen := IndexLength(index);

      ghost var body := output;
      output := output + ToLe(filterOffset, 8);
      output := output + ToLe(filterLen, 8);
      output := output + ToLe(indexOffset, 8);
      output := output + ToLe(indexLen, 8);
      FooterAppends(body, filterOffset, filterLen, indexOffset, indexLen);
      disk.files := (disk.files - {tmpPath})[finalPath := output];
    }
  }

  lemma FooterAppends(body: Bytes, a: nat, b: nat, c: nat, d: nat)
    ensures body + ToLe(a, 8) + ToLe(b, 8) + ToLe(c, 8) + ToLe(d, 8) == body + Footer(a, b, c, d)
  {
    hide ToLe;
  }

  lemma Regrouped(a: Bytes, b: Bytes, c: Bytes, d: Bytes, e: Bytes)
    ensures a + b + c + d + e == a + (b + c + d + e)
  {
  }

  lemma IndexHead(index: seq<(Bytes, nat)>)
    requires index != []
    ensures EncodeIndex(index) ==
            ToLe(|index[0].0|, 4) + index[0].0 + ToLe(index[0].1, 8) + EncodeIndex(index[1..])
  {
  }

  lemma IndexTail(index: seq<(Bytes, nat)>)
    ensures EncodeIndex(index[|index|..]) == []
  {
  }

  lemma IndexIsEmpty(t: Table)
    ensures Index(t) == [] <==> t == []
  {
  }

  lemma KeysOfAppend(t: Table, r: Record, s: FilterShape)
    ensures FilterOf(Keys(t + [r]), s) == Inserted(FilterOf(Keys(t), s), s, r.key)
  {
    hide Inserted;
    assert Keys(t + [r]) == Keys(t) + [r.key];
    assert (Keys(t) + [r.key])[..|t|] == Keys(t);
  }

  /** `index.iter().map(|(k, _)| 4 + k.len() + 8).sum()`. */
  function IndexLength(index: seq<(Bytes, nat)>): (n: nat)
    ensures n == |EncodeIndex(index)|
  {
    if index == [] then 0 else 4 + |index[0].0| + 8 + IndexLength(index[1..])
  }
}
