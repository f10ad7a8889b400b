# Tabula, verified

A Dafny model of the Tabula storage engine, a small log-structured merge tree: a write-ahead log, a
sorted memtable, SSTable files with a Bloom filter and a sparse index, a k-way compaction of level 0
into level 1, and the engine that ties them together. Paths and lines below are those of the engine's
own source tree.

What is proved, from the bytes up:

* **Log.** The checksum is the remainder of the polynomial division that defines CRC-32; `decode` accepts
  exactly the image of `encode`; a torn tail reads as a short read, a burst of up to four bytes in one field
  as a checksum error; `replay` returns the unique maximal entry list.
* **SSTable.** Opening a finished file recovers the exact index, filter and end of data; the iterator
  yields exactly the added records; the fast lookup (filter, binary search, scan with early exit) equals
  a linear search for every key and reads a bounded number of bytes; the filter has no false negatives, and
  which bits a key selects follows from the laws of the two hashes.
* **Compaction.** The heap-driven merge equals the reference "merge two by two, first wins, then drop
  tombstones", for every choice the heap makes among equal keys. One compaction keeps level 1 disjoint
  and free of tombstones. It preserves every lookup for the newest-first hand-over; for the hand-over as
  written, exactly when no key has different oldest and newest level-0 records.
* **Engine.** The class operations refine functions on one store value, error paths included. A machine of
  lock-level steps (append, insert, swap, partial writes, rename, truncate, register, merge, delete, publish,
  failing compaction, crash) gives, over all runs: for one client with the compaction thread, that reads, before
  and after any crash, return what the last operation on the key says; for any number of clients, conservation of
  records, exactly when `get` finds one, the exact condition for an appended record to survive crashes, the exact
  condition for level 1 to stay disjoint, and freedom from deadlock.
* **Failures.** Where a promise of the code fails, the condition it needs is proved, and a run of the machine reaches
  the failure.

## How it is organised

| file | source | content |
|---|---|---|
| `Bytes.dfy`, `Crc32.dfy`, `CrcDivision.dfy`, `WalFormat.dfy`, `Wal.dfy` | `src/wal.rs` | bytes and order, CRC-32 and what it is, entries, replay, the log file |
| `Tables.dfy`, `Bloom.dfy`, `SsTableFormat.dfy`, `SsTableWriter.dfy`, `SsTableReader.dfy` | `src/bloom.rs`, `src/sstable/` | sorted record lists, the filter, the file format, the classes that write and read it |
| `Names.dfy` | `src/lsm.rs`, `src/levels.rs` | file names, their levels and order; the directory |
| `Compaction.dfy`, `LevelTables.dfy`, `Levels.dfy` | `src/compaction.rs`, `src/levels.rs` | the merge, what a compaction does to lookups, the level manager |
| `MemTable.dfy`, `Store.dfy`, `Lsm.dfy` | `src/memtable.rs`, `src/lsm.rs` | memtable, one store as a value, the engine class |
| `Machine.dfy`, `Durable.dfy`, `Recovery.dfy` | `src/lsm.rs`, `src/levels.rs` | the step machine, one client with crashes |
| `Conservation.dfy`, `Survival.dfy`, `LevelOne.dfy`, `LockOrder.dfy` | `src/lsm.rs`, `src/levels.rs` | many clients: records, crashes, level 1, and the locks |
| `Scenarios.dfy`, `Losses.dfy` | `src/lsm.rs`, `src/levels.rs` | concrete runs that reach the failures |

`dafny verify dfyconfig.toml` checks everything.

A `Disk` is an object holding a map from names to bytes; every file operation changes that map. A table is
the list of records a file holds. Methods carry ghost parameters where their contract speaks of the table
a file was written from. Clock readings are parameters (`now`, `timestamp`) of the methods and a counter of
the machine, whose printed width is fixed by `Config.width`; filter sizing is an arbitrary function.

## Where the code and its comments disagree

The model follows the code.

* `add_l0_file` appends and `get` reads level 0 backwards, so the file registered last is taken for the newest.
  `compact` hands level 0 over in list order, oldest first, to a merge in which the lowest index wins "as the most
  recently flushed". `LevelTables.OldestFirstPreservesIff` gives the exact condition under which nothing changes;
  `Losses.CompactionLosesAnUpdate` is a run of the engine in which it does. Whole-run theorems about one client
  assume the condition at each compaction (`Recovery.Calm`).
* With several clients the file registered last need not be the newest: a flush registers after it has released the
  log lock. `Scenarios.LastRegisteredWins` and the run `Scenarios.LateRegistrationHidesAnUpdate`.
* The comment in `flush_memtable` says that holding the log lock keeps a concurrent write's entry from being
  wiped out. It does for appends that come later, but not for a write that is logged and not yet in the
  memtable when the memtable is swapped. `Survival.AppendedSurvives` and `Survival.SwapDecides` say exactly
  when an appended record survives; `Scenarios.RaceLosesAWrite` is a run that loses one.
* Replay skips a torn tail but never removes it, and later appends land behind it. `WalFormat.CleanIffAppendsReplay`:
  only a log without such a tail replays every entry that may be appended.
* Names are said to sort chronologically because they end in a timestamp. They do while timestamps print with
  equally many digits; `Names.LevelNameOrderIff` gives the exact condition for any two.
* Compaction inputs are deleted one by one. `LevelTables.CrashDuringDeletes` and `LevelTables.CrashDuringL1Deletes`
  give the exact condition for a crash in between; `Losses.CrashAmongDeletesLosesAnUpdate` is a run that fails it.
* A merge of tombstones makes a table without records, and so does a second flush of one full memtable. Such a
  table makes the next `compact` fail after it has drained the level lists, with the error only printed:
  `Compaction.CompactedIsEmptyIff`, `Scenarios.RacingFlushMakesAnEmptyTable`, `Stores.FailedCompactionForgets`,
  `Losses.EmptyTableStopsCompaction`. The files stay in the directory, and a restart finds them again, too late if a
  compaction has succeeded in between: `LevelTables.CompactionBesideStrays` is the exact condition,
  `Losses.RestartAfterFailureLosesAnUpdate` the run.

## Model

| member | source | states |
|---|---|---|
| Bytes.FromLeToLe | src/wal.rs:43-44 | a length below the limit of its field survives little-endian encoding |
| Bytes.ToLeFromLe | src/wal.rs:76 | reading a fixed-width field loses nothing: writing it again gives the same bytes |
| Bytes.FromLeConcat | src/wal.rs:76 | the bytes are the digits of the number in base 256, the lowest first |
| Bytes.LessIsStrictTotal | src/compaction.rs:49-53 | byte-string order is a strict total order |
| Bytes.LessIsLexicographic | src/compaction.rs:49-53 | that order is the lexicographic one: at the first difference the string that ends, or has the smaller byte, comes first |
| Crc32.ComputeCrc | src/wal.rs:26-36 | the two nested loops compute the checksum function that `CrcDivision.CrcIsRemainderIff` characterises |
| Crc32.StepInjective | src/wal.rs:31-32 | one shift step is injective, hence a bijection of the 32-bit register |
| Crc32.RunInjective | src/wal.rs:28-34 | feeding the same bytes to different registers never makes them equal |
| Crc32.FourBytesAreOneWord | src/wal.rs:28-34 | up to four bytes act as one 32-bit xor followed by eight shifts a byte |
| Crc32.BurstChangesCrc | src/wal.rs:26-36 | replacing at most four consecutive bytes by different ones, anywhere in any data, changes the checksum |
| CrcDivision.CrcIsRemainderIff | src/wal.rs:24-36 | a word is the checksum of the data if and only if its complement is the remainder of the standard's polynomial division: message bits lowest first, first 32 bits complemented, times x^32, by the IEEE 802.3 generator given by its powers |
| CrcDivision.RemainderIsUnique | src/wal.rs:24-25 | dividing by the generator leaves one remainder and one quotient |
| CrcDivision.PolynomialIsGenerator | src/wal.rs:31 | the constant of the loop has the coefficients of the generator, the highest power left out, lowest bit first |
| CrcDivision.Residue | src/wal.rs:26-36 | any data followed by its own checksum leaves the register at 0xDEBB20E3 |
| CrcDivision.CheckValue | src/wal.rs:24-25 | the check value of CRC-32: the checksum of the digits 1 to 9 is 0xCBF43926 |
| WalFormat.Encode | src/wal.rs:39-63 | the buffer filled piece by piece is the sealed encoding of the entry |
| WalFormat.EncodingLayout | src/wal.rs:39-63 | where tag, lengths, key, value and checksum are, byte by byte, and that the checksum covers everything before it |
| WalFormat.EncodingLeavesResidue | src/wal.rs:58-61 | every encoded entry, checksum included, leaves the residue |
| WalFormat.DecodeOfEncoding | src/wal.rs:65-124 | round trip: decoding an encoding followed by anything gives back the entry and its length |
| WalFormat.EncodingOfDecode | src/wal.rs:65-124 | converse: whatever decodes starts with the encoding of the decoded entry, consumed length included |
| WalFormat.StrictPrefixIsError | src/wal.rs:69-116 | every strict prefix of an encoding is a short read, never a checksum error and never an entry |
| WalFormat.BurstIsDetected | src/wal.rs:113-121 | any real change of at most four consecutive bytes inside the key, the value or the stored checksum decodes to a checksum error |
| WalFormat.ChecksumErrorIff | src/wal.rs:65-124 | a checksum error is reported exactly for a whole body followed by four bytes that are not its checksum |
| WalFormat.Replay | src/wal.rs:177-202 | the replay loop terminates on every byte string and returns the list characterised by the four lemmas below |
| WalFormat.ReplaySplitsTheLog | src/wal.rs:182-199 | the encodings of the replayed entries are a prefix of the log, and no entry starts the rest |
| WalFormat.ReplayIsMaximal | src/wal.rs:182-199 | every entry list whose encodings are a prefix of the log is a prefix of the replayed list |
| WalFormat.ReplayOfEncodings | src/wal.rs:177-202 | any concatenation of encodings, followed by bytes no entry starts, replays to exactly those entries |
| WalFormat.TornTailIsDropped | src/wal.rs:188-197 | encodings followed by a strict prefix of one more replay to exactly the complete entries |
| WalFormat.AppendToClean | src/wal.rs:168-175 | appending to a log without torn tail keeps it so and adds exactly one replayed entry |
| WalFormat.CleanIffAppendsReplay | src/wal.rs:168-199 | the exact condition: a log replays every entry that may be appended to it if and only if all its bytes belong to entries |
| WalFormat.TornLogLosesAnAppend | src/wal.rs:132-138 | three torn bytes, opened again and appended to: the new entry is not replayed |
| WalFormat.TornTailHidesLaterAppends | src/wal.rs:188-197 | a torn entry whose header is complete hides all later appends that end before its declared length |
| Wal.Wal.constructor | src/wal.rs:132-138 | opening creates a missing log and never shortens an existing one |
| Wal.Wal.Append | src/wal.rs:168-175 | an append adds the encoding at the end of the log and touches no other file |
| Wal.Wal.Truncate | src/wal.rs:144-150 | truncation empties the log and touches no other file |
| Tables.SortedTableIsUnique | src/sstable/writer.rs:3-6 | a strictly sorted record list is determined by its lookups |
| Tables.LiveUnlessTombstone | src/types.rs:1-3 | a found value reads as absent exactly if its 13 bytes spell `__TOMBSTONE__`, and otherwise, also if empty, as itself |
| Bloom.ComputeFnv1a | src/bloom.rs:48-60 | the hash loop, with 64-bit wrap-around, computes the hash whose step and values the next two rows give |
| Bloom.FnvStepLaw | src/bloom.rs:54-57 | one step flips the lowest bits of the hash where the byte has ones and multiplies by 1099511628211 modulo 2^64 |
| Bloom.FnvValues | src/bloom.rs:48-60 | the listed hashes of the empty key, of "a" and of "b" |
| Bloom.ComputeDjb2 | src/bloom.rs:62-69 | the second hash loop, with 64-bit wrap-around, computes the hash of the next row |
| Bloom.Djb2IsBase33 | src/bloom.rs:62-69 | djb2 in closed form: 5381 times 33^n plus the bytes as digits in base 33, modulo 2^64 |
| Bloom.PositionIsDoubleHash | src/bloom.rs:76-77 | round i selects the bit (h1 + i * h2 modulo 2^64) modulo m |
| Bloom.BitsAreOneNumber | src/bloom.rs:79-81 | bit `pos` of the filter is bit `pos` of its bytes read as one little-endian number |
| Bloom.ByteLengthIsCeiling | src/bloom.rs:39 | the array has room for m bits and not a byte more than they need |
| Bloom.InsertFromBits | src/bloom.rs:75-82 | after the insertion rounds a bit is set exactly if it was set or one of the rounds selects it |
| Bloom.InsertionKeepsKeys | src/bloom.rs:71-83 | an insertion makes its key possible and makes no possible key impossible |
| Bloom.NoFalseNegatives | src/bloom.rs:85-102 | after any insertion sequence every inserted key may be contained |
| Bloom.FilterBits | src/bloom.rs:71-83 | a bit of the filter is set exactly if some inserted key selects it |
| Bloom.FilterAnswerIff | src/bloom.rs:71-102 | the exact answer of a filter, false positives included: yes if and only if each of the key's k double hashes is a double hash of some inserted key |
| Bloom.FilterDependsOnKeySet | src/bloom.rs:71-83 | the filter depends on the set of keys only: insertion is idempotent and order-independent |
| Bloom.AbsentKeyIsDenied | src/bloom.rs:96-98 | a filter says no: with "a" inserted into 96 bits by 7 rounds, "b" is certainly absent |
| Bloom.SerialisationRoundTrip | src/bloom.rs:106-121 | the serialised filter gives back k, m and every bit |
| Bloom.BloomFilter.constructor | src/bloom.rs:41-46 | a new filter has the given shape and no bit set |
| Bloom.BloomFilter.Insert | src/bloom.rs:71-83 | the in-place loop leaves exactly the array in which the bits of `Bloom.FilterBits` are set, every index in bounds |
| Bloom.BloomFilter.Contains | src/bloom.rs:85-102 | the early-exit loop decides whether every selected bit is set |
| Bloom.BloomFilter.ToBytes | src/bloom.rs:106-112 | serialisation of the current bits and parameters |
| Bloom.BloomFilter.FromBytes | src/bloom.rs:115-121 | reads k, m and the bits back, whatever they are |
| SsTableFormat.MarksAreGood | src/sstable/writer.rs:79-83 | checkpoints start at the first record, increase, lie at least 4096 bytes apart and no further than the first record boundary there |
| SsTableFormat.CheckpointEvery4096 | src/sstable/writer.rs:80 | in bytes: at least 4096 from one checkpoint to the next, fewer without the record before the next, and fewer after the last up to the last record |
| SsTableFormat.MarksOfAppend | src/sstable/writer.rs:79-110 | the updates the writer makes to its index and byte count when a record is added |
| SsTableFormat.ReadRecordOfData | src/sstable/reader.rs:31-51 | the record at a boundary of the data section is read back exactly |
| SsTableFormat.ReadRecordIff | src/sstable/reader.rs:31-51 | on any bytes, a record is read exactly if its encoding is there |
| SsTableFormat.ScanOfData | src/sstable/reader.rs:28-53 | iterating from any record boundary yields exactly the records from there on |
| SsTableFormat.ParseOfEncodeIndex | src/sstable/reader.rs:90-105 | the index block parses back to the index that was written |
| SsTableFormat.ParseIndexIff | src/sstable/reader.rs:90-105 | on any bytes, an index block parses exactly if it is the encoding of an index |
| SsTableFormat.FooterFields | src/sstable/writer.rs:141-153 | the four footer fields are read back from their places |
| SsTableFormat.RecordLayout | src/sstable/writer.rs:85-98 | where the two lengths, the key and the value of a record are |
| SsTableFormat.IndexEntryLayout | src/sstable/writer.rs:124-132 | where the length, key and offset of an index entry are |
| SsTableFormat.FileLayout | src/sstable/writer.rs:1-24 | where data, filter, index and the four footer fields of a finished file are |
| SsTableFormat.OpenOfFileBytes | src/sstable/reader.rs:56-113 | opening a finished file recovers the exact index, filter and end of data |
| SsTableFormat.OpensIff | src/sstable/reader.rs:56-113 | on any bytes, `open` succeeds exactly if the footer names a filter of at least 16 bytes and an encoded index inside the file, and panics exactly if a readable section is no filter or no index |
| SsTableFormat.TableOfFileBytes | src/sstable/reader.rs:189-199 | whole-file round trip: a finished file iterates over exactly the added records, in order |
| SsTableWriter.SsTableWriter.constructor | src/sstable/writer.rs:63-77 | the writer starts an empty temporary file; the final name is not touched |
| SsTableWriter.SsTableWriter.Add | src/sstable/writer.rs:79-110 | adds one record to the history while buffer, index, offset, byte count and filter stay those of the history |
| SsTableWriter.SsTableWriter.Finish | src/sstable/writer.rs:112-161 | the final name holds exactly the file of the added records and the temporary name is gone |
| SsTableReader.BinarySearch | src/sstable/reader.rs:135-148 | on a sorted index: the position of the key, or the point that separates smaller from larger keys |
| SsTableReader.ReadIndex | src/sstable/reader.rs:90-105 | the parsing loop on any bytes, the out-of-range slice included |
| SsTableReader.SsTableReader.Open | src/sstable/reader.rs:56-113 | `open` on any bytes whatever: success, error or panic as the format function says |
| SsTableReader.SsTableReader.GetRaw | src/sstable/reader.rs:129-187 | filter, binary search and early-exit scan return what a linear search of the added records returns, having read at most 4095 bytes plus two records |
| SsTableReader.SsTableReader.Get | src/sstable/reader.rs:119-124 | the same, with a tombstone read as absent |
| SsTableReader.SsTableReader.Iter | src/sstable/reader.rs:189-199 | an iterator at the start of the data section |
| SsTableReader.SsTableIter.Next | src/sstable/reader.rs:31-52 | each call yields the next record still to come, and ends exactly when none is left |
| SsTableReader.StartOfSearch | src/sstable/reader.rs:144-148 | the chosen checkpoint is one from which a scan decides the lookup |
| SsTableReader.ScanReads | src/sstable/reader.rs:154-184 | one scan step keeps the scan's state or decides the lookup, within the byte bound |
| SsTableReader.BeforeFirst | src/sstable/reader.rs:146 | a key before the first checkpoint is nowhere in the file |
| SsTableReader.ScanBound | src/sstable/reader.rs:154-184 | from one checkpoint through the next: at most 4095 bytes plus two records of the largest size |
| SsTableReader.IndexIsSparse | src/sstable/writer.rs:80-83 | the index has at most one entry per 4096 data bytes, plus one |
| SsTableReader.OpenedFileHolds | src/sstable/reader.rs:107-112 | a reader of a finished file meets the hypothesis of the lookup theorems |
| Names.LevelOfLevelName | src/lsm.rs:98-104 | the directory scan files a level file under the level it was named for |
| Names.LevelOfIff | src/lsm.rs:90-106 | the scan files a name under a level exactly if it is `l`, the level in digits, an underscore, anything, and `.sst` |
| Names.LevelNameOrderIff | src/lsm.rs:82-83 | the exact condition under which an earlier file name sorts first: the earlier timestamp is at most the equally many leading digits of the later one |
| Names.LevelNameOrder | src/lsm.rs:112-114 | so names sort by time while timestamps have equal printed width |
| Names.WidthMatters | src/lsm.rs:82-83 | with different widths both happen: 9 sorts after 10, and 1 before 10 |
| Names.NameLessIsLexicographic | src/lsm.rs:112-114 | names sort by the first character in which they differ |
| Names.DecimalIsDigits | src/lsm.rs:285-291 | timestamps are printed in decimal digits without leading zeros |
| Names.TmpOfLevelName | src/sstable/writer.rs:65 | the temporary name of a level file is its name with the extension `.tmp` |
| Names.TmpNamesDiffer | src/sstable/writer.rs:65 | different level files are written under different temporary names |
| Names.TmpAndWalAreSkipped | src/lsm.rs:94-104 | the scan ignores temporary files and the log, and the two never collide |
| Compaction.MergeAllLookup | src/compaction.rs:93-105 | merging sorted runs is sorted, and a key has the value of the first run that knows it |
| Compaction.CompactedLookup | src/compaction.rs:118-120 | the output is strictly sorted and holds exactly the keys whose first record is no tombstone, with that record's value |
| Compaction.CompactedIsBounded | src/compaction.rs:59-66 | the output never has more records than the filter was sized for |
| Compaction.CompactedIsEmptyIff | src/compaction.rs:118-120 | the output has no records exactly when no key has a live first record |
| Compaction.Peek | src/compaction.rs:49-53 | some entry with a smallest key; which one among equal keys is left open |
| Compaction.DrainKey | src/compaction.rs:87-105 | one drain consumes exactly the inputs whose next record has the smallest key and keeps the value of the lowest of them, in whatever order the heap pops equal keys |
| Compaction.Refill | src/compaction.rs:107-116 | every consumed source that has more records is pending again with its next one |
| Compaction.TakenIsFirst | src/compaction.rs:87-105 | taking a key from all inputs that start with it takes the first record of their merge, that of the lowest-numbered input, on any inputs, sorted or not |
| Compaction.RoundKeepsOutput | src/compaction.rs:87-121 | a round keeps the output, followed by the merge of what is left, equal to the reference result |
| Compaction.MergeRound | src/compaction.rs:87-121 | one iteration of the outer loop keeps the merge invariant and uses up at least one remaining record |
| Compaction.EverythingMerged | src/compaction.rs:87-123 | with an empty heap the output is the reference result |
| Compaction.CompactedIsUnique | src/compaction.rs:87-121 | on sorted inputs no other sorted table has exactly the live first records |
| Compaction.ExpectedKeys | src/compaction.rs:63-66 | the total number of input records |
| Compaction.TotalRecordsAdds | src/compaction.rs:63-66 | that number is additive, and for one input its length |
| Compaction.MergeSsTables | src/compaction.rs:55-125 | on any inputs, sorted or not, the whole merge writes exactly the file of the reference result under the output name |
| LevelTables.KeyInHull | src/levels.rs:74-85 | every key of level 0 lies in the combined range |
| LevelTables.HullSpans | src/levels.rs:74-85 | both ends of the combined range are keys of level 0, and all its keys lie between them |
| LevelTables.OverlapIffShared | src/levels.rs:28-32 | ranges overlap exactly if they share a key |
| LevelTables.UntouchedIgnoreL0 | src/levels.rs:87-101 | a level-1 file left alone knows no key of level 0 |
| LevelTables.CompactionView | src/levels.rs:58-124 | after a compaction a key of level 0 reads as the hand-over order says and any other key as before |
| LevelTables.NewestFirstPreserves | src/levels.rs:103-106 | with the documented order, most recent first, no lookup changes and no deleted value comes back |
| LevelTables.OldestFirstAt | src/levels.rs:103-106 | as written, one key's lookup is preserved if and only if its oldest and newest level-0 records are equal |
| LevelTables.OldestFirstPreservesIff | src/levels.rs:103-106 | as written, all lookups are preserved if and only if this holds for every key |
| LevelTables.OldestFirstLosesAnUpdate | src/levels.rs:67-106 | two flushes after which a compaction as written brings the old value back |
| LevelTables.MergedMissesUntouched | src/levels.rs:28-32 | the range of the merged file meets no untouched range |
| LevelTables.CompactionKeepsL1 | src/levels.rs:120-121 | a successful compaction keeps level 1 pairwise disjoint, free of tombstones and sorted, whatever the hand-over order |
| LevelTables.DisjointWithMergedIff | src/levels.rs:112-118 | with the merged table next to its inputs, level 1 is disjoint if and only if the merged table is empty or meets none of the tables it was merged from |
| LevelTables.AtMostOneKnows | src/lsm.rs:221-223 | with disjoint ranges at most one level-1 file knows a key |
| LevelTables.CrashAfterRename | src/levels.rs:112-118 | a crash after the output is in place and before any input is deleted changes no recovered lookup |
| LevelTables.CrashDuringDeletes | src/levels.rs:116-118 | after any number of level-0 deletions, a lookup is unchanged if and only if a remaining level-0 table knows the key or the record found instead equals the newest one |
| LevelTables.CrashDuringL1Deletes | src/levels.rs:116-118 | the same for every crash among the level-1 deletions that follow |
| LevelTables.CrashDuringDeletesLosesAnUpdate | src/levels.rs:116-118 | tables with which such a crash brings an old value back although the oldest and newest level-0 records agree |
| LevelTables.CompactionBesideStrays | src/levels.rs:67-121 | the exact condition for a compaction next to files a failed one left behind: what a restart reads for a key is unchanged if and only if the first record among those files, or else the oldest of level 0, is the newest one |
| Levels.KeyRange | src/levels.rs:16-26 | the full scan returns smallest and largest key, or the error of an empty table |
| Levels.OpenReaders | src/levels.rs:69-72 | opens all of level 0, or fails exactly if one file does not open |
| Levels.CombinedRange | src/levels.rs:74-85 | the loop returns the hull of the level-0 ranges, or fails exactly if one table is empty |
| Levels.SplitL1 | src/levels.rs:87-101 | splits level 1 by overlap in order, or fails with the error of its first file that does not open or is empty |
| Levels.DeleteAll | src/levels.rs:116-118 | removes exactly the merged inputs from the directory |
| Levels.SelectNamesTables | src/levels.rs:92-101 | selecting names and selecting their tables agree |
| Levels.MergedIffShared | src/levels.rs:87-101 | a successful compaction takes exactly the level-1 files whose span, from smallest to largest key, shares a key with the span of level 0; any other stays listed and its file is not touched |
| Levels.CompactionLeavesAlone | src/levels.rs:58-124 | no compaction changes deeper levels or files outside the first two, nor anything at all if level 0 is empty; one that had work and succeeded leaves level 0 empty and its output last in level 1 |
| Levels.L1ErrorAt | src/levels.rs:92-94 | the error of level 1 is that of its first file that does not open or has no records |
| Levels.LevelManager.AddL0File | src/levels.rs:39-44 | a new file goes to the end of level 0, created if missing |
| Levels.LevelManager.Compact | src/levels.rs:58-124 | level lists, directory and result are exactly those of the outcome function, with what is drained and which error is returned when a file does not open or has no records |
| MemTable.EntriesAreTheMap | src/memtable.rs:60-66 | iteration yields a strictly sorted list with exactly the map's lookups |
| MemTable.MemTable.Set | src/memtable.rs:23-25 | replaces one binding and nothing else |
| MemTable.MemTable.Delete | src/memtable.rs:26-28 | binds the key to a value that spells the tombstone |
| MemTable.MemTable.SizeBytes | src/memtable.rs:31-33 | the sum of key and value lengths |
| MemTable.SizeOfWrite | src/memtable.rs:31-33 | a write adds the bytes of its key and value, less those of the binding it replaces |
| MemTable.MemTable.Flush | src/memtable.rs:35-42 | the final name holds exactly the file of all entries, tombstones included, and nothing else changes |
| MemTable.MemTable.Scan | src/memtable.rs:44-52 | the live records of the half-open range, in order |
| MemTable.WindowLookup | src/memtable.rs:44-52 | a scan holds a key exactly if it lies in the range and is live, with its value |
| Stores.FileOfTable | src/sstable/reader.rs:56-113 | a finished file opens and reads as the table it was written from |
| Stores.ReadTwoLevels | src/lsm.rs:188-233 | a read is the memtable, then level 0 newest first, then level 1 |
| Stores.ReadOrderOfNewFile | src/lsm.rs:208-219 | a newly registered level-0 file is consulted before all others |
| Stores.ReadOrderOfNewLevel | src/lsm.rs:221-231 | a deeper level is consulted after all shallower ones, in list order |
| Stores.MemOfReads | src/lsm.rs:129-135 | the memtable that `open` rebuilds reads, for every key, as the last logged operation on it says |
| Stores.LastWriteAt | src/lsm.rs:168-186 | what the last operation says, by position: a put its value unless it spells the tombstone, a delete absence |
| Stores.FlushKeepsReads | src/lsm.rs:255-283 | a flush changes no read |
| Stores.WriteIsReadBack | src/lsm.rs:168-186 | after a put or delete, flush included, its key reads as it promises and every other key as before |
| Stores.FlushesAtThreshold | src/lsm.rs:176-183 | after a write the memtable holds fewer bytes than the threshold, and no flush is of fewer |
| Stores.FailedCompactionForgets | src/levels.rs:67-101 | `compact` fails exactly if a level-0 or level-1 file does not open or is empty; no file is lost, but reads then see neither level 0 nor, if level 1 is to blame, level 1 |
| Stores.DiscoveryIsUnique | src/lsm.rs:84-117 | a directory determines its level lists |
| Lsm.SortNames | src/lsm.rs:112-114 | a sorted list of the same names |
| Lsm.DiscoverLevels | src/lsm.rs:84-117 | the scan, in any directory order, returns the level lists of the directory |
| Lsm.Lsm.constructor | src/lsm.rs:120-165 | `open`: memtable replayed from the log, level lists discovered, no file lost |
| Lsm.Lsm.Set | src/lsm.rs:168-186 | a whole put, with the flush it may end in, as one transition of the store value |
| Lsm.Lsm.Delete | src/lsm.rs:235-253 | a whole delete likewise |
| Lsm.Lsm.FlushMemtable | src/lsm.rs:255-283 | memtable to a new level-0 file, log emptied, file registered last |
| Lsm.Lsm.CompactIfNeeded | src/lsm.rs:146-151 | one wake-up of the background thread: nothing below four level-0 files, else one compaction with its outcome, errors included |
| Lsm.Lsm.Get | src/lsm.rs:188-233 | the byte-level read path, on any files whose lookup does not panic; when those that open are finished SSTables: memtable, then files in order until one knows the key, with an I/O error if it first reaches a file that does not open |
| Lsm.AnswerReadsTheStore | src/lsm.rs:188-233 | with all files in place that read never fails and is the read of the store value |
| Lsm.SoundIsReadable | src/sstable/reader.rs:76-80 | finished files never make a lookup panic |
| Lsm.SearchFindsFirstHit | src/lsm.rs:210-231 | trying files one after the other finds the first record among their tables |
| Lsm.SearchOutcome | src/lsm.rs:210-231 | the search ends at the first file that does not open or knows the key, with an error or its record, and finds nothing exactly if there is none |
| Lsm.Lsm.NewestFirst | src/lsm.rs:208-219 | the level-0 loop tries the files newest first, as the search function does |
| Lsm.Lsm.InOrder | src/lsm.rs:224-231 | the loop over a deeper level tries its files in order |
| Lsm.Lsm.Probe | src/lsm.rs:214-215 | opening one file and looking the key up is a lookup in its table, or an I/O error |
| Machine.OperationIsARun | src/lsm.rs:168-186 | the lock-level steps of one operation run alone add up to the transition the engine class makes |
| Machine.FlushIsARun | src/lsm.rs:255-283 | the same for a flush |
| Machine.CompactionIsARun | src/levels.rs:58-124 | the same for the compaction thread: merge, deletion and publication add up to one successful `compact` |
| Machine.FailureIsAStep | src/levels.rs:67-101 | a failing step leaves the lists and the directory of one `compact` that returns an error |
| Durable.DurableAppend | src/lsm.rs:169-179 | an append changes what a restart would read by exactly its operation |
| Durable.DurableRename | src/sstable/writer.rs:155-160 | revealing the flushed file while the log still holds its records changes nothing a restart would read |
| Durable.DurableTruncate | src/lsm.rs:276 | emptying the log once its records are in a file changes nothing a restart would read |
| Durable.DurableMerge | src/levels.rs:112-114 | revealing the merged file next to its inputs changes nothing a restart would read |
| Durable.DurableDelete | src/levels.rs:116-118 | deleting the merged inputs changes nothing a restart would read |
| Recovery.InvStep | src/lsm.rs:168-283 | every enabled calm step, failing compactions and crashes included, keeps the invariant tying log, memtable, files and level lists to the history |
| Recovery.RunKeepsInv | src/lsm.rs:168-283 | so does every run of one client with the compaction thread |
| Recovery.LoggedIsAppended | src/lsm.rs:169-179 | the history map is the plain map the completed appends build, and reads, for every key, as the last of them on that key says |
| Recovery.SequentialRefinement | src/lsm.rs:188-233 | between operations, over runs with flushes, compactions, failed compactions and restarts, `get` returns, for every key, what the last appended operation on it says, while every level-0 file is tracked |
| Recovery.LastOperationIsRead | src/lsm.rs:188-199 | in particular a put is read back until its key is written again, the empty value included, unless the value spells the tombstone; a deleted key stays absent |
| Recovery.CrashSafety | src/lsm.rs:120-137 | whatever step a crash interrupts, and after any earlier crashes and failed compactions, the reopened store reads, for every key, as the last operation says whose append completed |
| Recovery.CrashInsideAppend | src/wal.rs:188-197 | a last crash in the middle of an append, at any byte, loses exactly the entry being appended |
| Recovery.RestartAgreement | src/lsm.rs:84-117 | at rest, the directory scan returns exactly the in-memory level lists if and only if every level-0 file is tracked |
| Conservation.WriteStep | src/lsm.rs:168-283 | every crash-free step of any thread keeps the file invariant; unless it is a failing compaction it keeps an inserted record conserved and a tracked one tracked |
| Conservation.RecordIsConserved | src/lsm.rs:168-283 | over every interleaving, an inserted record of a write-once key is in the memtable, in a flush in flight or in a tracked file |
| Conservation.GetFindsUnlessInFlight | src/lsm.rs:270-280 | a read at one instant finds the value if and only if memtable or tracked files hold it; otherwise a flush between swap and registration does |
| Conservation.TrackedStays | src/lsm.rs:143-153 | once in a tracked file, in a tracked file for ever, through all successful compactions |
| Conservation.TwoPhaseGet | src/lsm.rs:188-233 | `get` as written, looking into the memtable in one state and the files in a later one, finds an inserted record if and only if the memtable has it at the first look or a tracked file at the second; a miss implies that at the first look it was in flight and in no tracked file |
| Survival.LogStep | src/lsm.rs:168-283 | every step of any thread, failing compactions and crashes among deletions included, keeps the file and log invariant, and keeps a record recoverable unless an unguarded swap happens |
| Survival.CrashReads | src/lsm.rs:120-137 | after a crash a record reads back exactly if the log or a level file has it |
| Survival.AppendedSurvives | src/lsm.rs:255-277 | any number of clients, crashes and failed compactions: if no memtable is swapped out beside a logged and uninserted write of the key (or the table or a file has the record), an appended record reads back after a crash in any state, also between two deletions of a compaction |
| Survival.SwapDecides | src/lsm.rs:255-277 | the converse: after the truncation that ends a flush, a record appended before its swap survives a crash if and only if the swap was guarded, whether the writer's insert came before the truncation or not |
| Scenarios.RaceLosesAWrite | src/lsm.rs:168-186 | a run of two clients from the empty store: a put is complete and readable, and a crash loses it; in between, a read misses an inserted record in flight |
| Scenarios.LastRegisteredWins | src/lsm.rs:277-280 | of two flushes waiting to register, the one that registers last decides a key, whichever memtable was swapped out first |
| Scenarios.LateRegistrationHidesAnUpdate | src/lsm.rs:277-280 | a run in which a client that wrote a key twice reads its older value, because the flushes register in the other order |
| Scenarios.RacingFlushMakesAnEmptyTable | src/lsm.rs:176-183 | a run in which two clients fill one memtable, and the second flush registers a file without records |
| LevelOne.LevelOneStep | src/levels.rs:87-121 | every step of any thread, and every crash that meets the condition below, keeps level 1 disjoint and free of tombstones; only a failing compaction leaves a level-1 file behind |
| LevelOne.RestartIsDisjointIff | src/lsm.rs:84-117 | the exact condition: the level 1 that a restart finds is disjoint if and only if no merged file meets an input it was merged from and that is still there, and no file left behind by a failed compaction meets another |
| LevelOne.LevelOneStaysDisjoint | src/lsm.rs:221-223 | over all runs of any number of clients whose crashes meet that condition: level 1 is sorted, disjoint and free of tombstones, and at most one of its files knows a key |
| LevelOne.NextRestartIsDisjointIff | src/lsm.rs:84-117 | in every state of such a run, the condition decides the next restart |
| Losses.CompactionLosesAnUpdate | src/levels.rs:67-106 | a run of four flushed puts in which the read is the last put until the background compaction and the first one ever after |
| Losses.EmptyTableStopsCompaction | src/levels.rs:16-18 | a run of deletes, a compaction and puts after which the next compaction fails with both levels drained and a readable key is gone |
| Losses.RestartAfterFailureLosesAnUpdate | src/levels.rs:67-101 | that run continued: the files left behind by the failed compaction come back at a restart and hide a newer, compacted value |
| Losses.CrashAmongDeletesLosesAnUpdate | src/levels.rs:116-118 | a run, with every compaction calm, whose crash between the deletions of a compaction brings an overwritten value back, and whose crash before them leaves two level-1 files with one range |
| LockOrder.HolderFacts | src/lsm.rs:143-283 | holders of the memtable or levels lock never wait; holders of the log lock wait for the memtable lock only |
| LockOrder.RunKeepsExclusion | src/lsm.rs:143-283 | in every reachable state no lock is held in incompatible modes |
| LockOrder.SharedHoldersRead | src/lsm.rs:143-283 | a lock that two threads hold at once is not the log lock, and neither thread is writing |
| LockOrder.WaitingIsShallow | src/lsm.rs:168-283 | a chain of waiting threads ends after two links |
| LockOrder.NoDeadlock | src/lsm.rs:168-283 | in no reachable state do threads wait for each other in a cycle |
| LockOrder.SomeoneCanStep | src/lsm.rs:168-283 | in every reachable state with unfinished work some thread can take its next lock step |
| LockOrder.EventFollowsProgram | src/lsm.rs:168-283 | every event of the step machine is the next piece of the lock program of its client, and is enabled only when the locks it takes are free |
| LockOrder.EnabledIffFree | src/lsm.rs:168-283 | the converse: the event that comes next for a client is enabled exactly if every lock it takes is free, so no interleaving that the locks allow is missing |
| LockOrder.ClientHolds | src/lsm.rs:267-277 | between events a client of the step machine holds the log lock exactly where the lock program does, and nothing else |
| LockOrder.CompactorHolds | src/lsm.rs:146-151 | likewise the compaction thread and the levels lock |
| LockOrder.ReaderHolds | src/lsm.rs:188-204 | a read holds the memtable lock for its first look and the levels lock for its second, shared both times, and nothing in between |

## Left out

- Recovery.CrashSafety: one client thread; every compaction finds all level-0 files of the directory in its list and no key with different oldest and newest level-0 records; no crash falls between two deletions of a compaction. Without these the property fails: `Scenarios.RaceLosesAWrite`, `Losses.RestartAfterFailureLosesAnUpdate`, `Losses.CompactionLosesAnUpdate` and `Losses.CrashAmongDeletesLosesAnUpdate` are the runs, and `Survival.SwapDecides`, `LevelTables.CompactionBesideStrays`, `LevelTables.OldestFirstPreservesIff`, `LevelTables.CrashDuringDeletes` and `LevelTables.CrashDuringL1Deletes` the exact conditions. A torn append is covered at the last crash (`Recovery.CrashInsideAppend`); appending to its log again has the condition of `WalFormat.CleanIffAppendsReplay`.
- Recovery.SequentialRefinement: the compactions as for `Recovery.CrashSafety`; between a failed compaction and the next restart reads are those of `Stores.FailedCompactionForgets`.
- Recovery.RestartAgreement: all timestamps of a run have one printed width; the machine takes no step that would break this.
- Durable.DurableDelete: all inputs go in one step, and no key has different oldest and newest level-0 records; single deletions are `LevelTables.CrashDuringDeletes` and `LevelTables.CrashDuringL1Deletes`.
- Conservation.GetFindsUnlessInFlight: write-once keys whose value is not the tombstone, no crash in the run, and no failing compaction.
- Conservation.TwoPhaseGet: likewise. That a client which writes a key several times reads its last value while flushes register in the order of their swaps is not stated; `Scenarios.LastRegisteredWins` is the step it would rest on.
- Survival.AppendedSurvives: write-once keys whose value is not the tombstone. For keys written by several clients the order of the log and the order of the memtable can differ, and no plain map is promised.
- LevelOne.LevelOneStaysDisjoint: a crash that does not meet the condition of `LevelOne.RestartIsDisjointIff` leaves overlapping level-1 files, as in `Losses.CrashAmongDeletesLosesAnUpdate`; `LevelTables.CrashAfterRename` says that lookups are unchanged if no input was deleted yet.
- WalFormat.TornTailHidesLaterAppends: one family of unclean logs; the exact condition is `WalFormat.CleanIffAppendsReplay`.
- Levels.LevelManager.Compact: files whose index or filter section makes `open` panic are excluded. A compaction past level 1 does not exist in the source either.
- Lsm.Lsm.Get: promises a result only if the files that open are finished SSTables: binary search on an unsorted index is unspecified in the source language. Files that make the lookup panic are excluded.
- SsTableReader.SsTableIter.Next: after a short read the source's iterator may be asked again, at a file position its language leaves unspecified; the model ends there. Finished files never show the difference.
- SsTableWriter.SsTableWriter.Add: the contract states the history of records; lengths that do not fit into 32 bits are truncated as in the source, and only files whose lengths and offsets fit are claimed to read back.
- MemTable.MemTable.Scan: crossed bounds panic in the source and are excluded.
- MemTable.EntriesAreTheMap: the ordered map itself is not modelled; its iteration order is a function of its contents.
- Compaction.Peek: the binary heap is a multiset with any smallest entry on top.
- LockOrder.EventFollowsProgram: the lock programs also cover reads and the polling of the compaction thread, which the step machine has no events for.
- Errors of the operating system other than a file that does not open, failed deletes, permissions, allocation failure, and power loss (`sync`, page cache, `fdatasync`).
- Buffering in `BufWriter`: the machine lets a temporary file hold any bytes at any time instead.
- The floating-point sizing in `BloomFilter::new` and the false-positive rate: k and m are arbitrary, with m positive if k is.
- The wall clock and the poll interval: clock readings strictly increase, and any scheduling is allowed.
- Thread start, the shutdown flag and the join in `Drop`, and fairness or writer preference of the locks.
- Overflow of `usize` and `u64` counters beyond the field widths of the formats.
- Linearizability of a `get` racing with writers of the same key.
- Levels beyond 1 in the machine: nothing in the source creates them. `Lsm.Lsm.Get` and `Lsm.DiscoverLevels` do cover them.
- The command-line program, benchmarks and the profiling binary.
