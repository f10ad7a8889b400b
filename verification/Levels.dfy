/** The level lists and the compaction of level 0 into level 1. */
module Levels {
  import opened Wrappers
  import opened Bytes
  import opened Names
  import opened Storage
  import opened Tables
  import opened SsTableFormat
  import opened SsTableWriter
  import opened SsTableReader
  import opened Compaction
  import opened LevelTables

  const L0_COMPACTION_THRESHOLD: nat := 4

  datatype CompactionError = Io | EmptySsTable

  type LevelList = seq<seq<Name>>

  // ---------- tables by name ----------

  function TableAt(dir: Directory, name: Name): Table {
    if name in dir then TableOf(dir[name]) else []
  }

  function TablesAt(dir: Directory, names: seq<Name>): (ts: seq<Table>)
    ensures |ts| == |names|
  {
    seq(|names|, i requires 0 <= i < |names| => TableAt(dir, names[i]))
  }

  /** The name stands for a file that opens and iterates in key order. */
  predicate IsTable(dir: Directory, name: Name) {
    name in dir && OpenFile(dir[name]).Opened? && Sorted(TableOf(dir[name]))
  }

  predicate Opens(dir: Directory, name: Name) {
    name in dir && OpenFile(dir[name]).Opened?
  }

  predicate AllOpen(dir: Directory, names: seq<Name>) {
    forall i | 0 <= i < |names| :: Opens(dir, names[i])
  }

  /** Opening the file does not panic. */
  predicate IsUsable(dir: Directory, name: Name) {
    name in dir ==> !OpenFile(dir[name]).Panicked?
  }

  predicate AreUsable(dir: Directory, names: seq<Name>) {
    forall i | 0 <= i < |names| :: IsUsable(dir, names[i])
  }

  predicate AreTables(dir: Directory, names: seq<Name>) {
    forall i | 0 <= i < |names| :: IsTable(dir, names[i])
  }

  predicate NonEmpty(dir: Directory, names: seq<Name>) {
    forall i | 0 <= i < |names| :: TableAt(dir, names[i]) != []
  }

  lemma NonEmptyTables(dir: Directory, names: seq<Name>)
    ensures NonEmpty(dir, names) <==> AllNonEmpty(TablesAt(dir, names))
  {
    hide TableAt;
    assert forall i | 0 <= i < |names| :: TablesAt(dir, names)[i] == TableAt(dir, names[i]);
  }

  function SelectNames(dir: Directory, names: seq<Name>, hull: Range, meets: bool): (r: seq<Name>)
    requires NonEmpty(dir, names)
  {
    if names == [] then [] else
    var rest := SelectNames(dir, names[1..], hull, meets);
    if Overlap(hull, RangeOf(TableAt(dir, names[0]))) == meets then [names[0]] + rest else rest
  }

  lemma {:induction false} SelectNamesTables(dir: Directory, names: seq<Name>, hull: Range, meets: bool)
    requires NonEmpty(dir, names) && AllNonEmpty(TablesAt(dir, names))
    ensures TablesAt(dir, SelectNames(dir, names, hull, meets)) == Select(TablesAt(dir, names), hull, meets)
    ensures forall n | n in SelectNames(dir, names, hull, meets) :: n in names
  {
    hide Overlap, TableAt, AllNonEmpty;
    if names != [] {
      assert TablesAt(dir, names)[1..] == TablesAt(dir, names[1..]);
      NonEmptyTables(dir, names[1..]);
      SelectNamesTables(dir, names[1..], hull, meets);
      assert TablesAt(dir, names)[0] == TableAt(dir, names[0]);
      var rest := SelectNames(dir, names[1..], hull, meets);
      TablesAtConcat(dir, [names[0]], rest);
      assert TablesAt(dir, [names[0]]) == [TableAt(dir, names[0])];
    }
  }

  lemma TablesAtConcat(dir: Directory, a: seq<Name>, b: seq<Name>)
    ensures TablesAt(dir, a + b) == TablesAt(dir, a) + TablesAt(dir, b)
  {
    hide TableAt;
  }

  lemma AreTablesSorted(dir: Directory, names: seq<Name>)
    requires AreTables(dir, names)
    ensures AllSorted(TablesAt(dir, names))
  {
    hide OpenFile, TableOf, Sorted;
    forall i | 0 <= i < |names| ensures Sorted(TablesAt(dir, names)[i]) {
      assert IsTable(dir, names[i]);
    }
  }

  // ---------- the result of a compaction ----------

  function Padded(levels: LevelList): (p: LevelList)
    ensures |p| >= 2 && levels <= p
    ensures forall i | |levels| <= i < |p| :: p[i] == []
    decreases 2 - |levels|
  {
    if |levels| < 2 then Padded(levels + [[]]) else levels
  }

  datatype Outcome = Outcome(levels: LevelList, dir: Directory, result: Result<(), CompactionError>)

  function SetOf(names: seq<Name>): set<Name> {
    set i | 0 <= i < |names| :: names[i]
  }

  /** The level-1 names a compaction merges (`meets`), or leaves alone. */
  function L1Part(levels: LevelList, dir: Directory, meets: bool): seq<Name>
    requires |levels| >= 2 && levels[0] != []
    requires NonEmpty(dir, levels[0]) && NonEmpty(dir, levels[1])
  {
    NonEmptyTables(dir, levels[0]);
    SelectNames(dir, levels[1], HullOf(TablesAt(dir, levels[0])), meets)
  }

  /** The directory after the merged file has been renamed into place. */
  function WithOutput(dir: Directory, inputs: seq<Name>, output: Name, sizing: Sizing): Directory {
    var runs := TablesAt(dir, inputs);
    (dir - {TmpName(output)})[output := FileBytes(Compacted(runs), sizing(TotalRecords(runs)))]
  }

  /** Level 0 is opened as a whole before its ranges are computed. */
  function L0Error(dir: Directory, names: seq<Name>): CompactionError {
    if AllOpen(dir, names) then EmptySsTable else CompactionError.Io
  }

  /** Level 1 is opened and measured file by file: the first file that yields no range decides. */
  function L1Error(dir: Directory, names: seq<Name>): CompactionError
    requires !NonEmpty(dir, names)
  {
    if TableAt(dir, names[0]) != [] then
      (assert !NonEmpty(dir, names[1..]) by {
         var i :| 0 <= i < |names| && TableAt(dir, names[i]) == [];
         assert names[1..][i - 1] == names[i];
       }
       L1Error(dir, names[1..]))
    else if Opens(dir, names[0]) then EmptySsTable
    else CompactionError.Io
  }

  /** `compact`: what it leaves in the level lists, in the directory, and as its result. A file that does
      not open, or has no records, is noticed only after level 0, or both levels, have been drained. */
  function CompactionOutcome(before: LevelList, dir: Directory, timestamp: nat, sizing: Sizing): Outcome {
    var levels := Padded(before);
    if levels[0] == [] then
      Outcome(levels, dir, Ok(()))
    else if !NonEmpty(dir, levels[0]) then
      Outcome(levels[0 := []], dir, Err(L0Error(dir, levels[0])))
    else if !NonEmpty(dir, levels[1]) then
      Outcome(levels[0 := []][1 := []], dir, Err(L1Error(dir, levels[1])))
    else
      var output := LevelName(1, timestamp);
      var inputs := levels[0] + L1Part(levels, dir, true);
      Outcome(levels[0 := []][1 := L1Part(levels, dir, false) + [output]],
              WithOutput(dir, inputs, output, sizing) - SetOf(inputs), Ok(()))
  }

  /** A name is selected by whether its table shares a key with the hull. */
  lemma {:induction false} SelectedIff(dir: Directory, names: seq<Name>, hull: Range, meets: bool, name: Name)
    requires NonEmpty(dir, names)
    ensures name in SelectNames(dir, names, hull, meets) <==>
            name in names && Overlap(hull, RangeOf(TableAt(dir, name))) == meets
  {
    hide Overlap, TableAt;
    if names != [] {
      SelectedIff(dir, names[1..], hull, meets, name);
      assert names == [names[0]] + names[1..];
    }
  }

  /** Which level-1 files a successful compaction of tables in key order takes: exactly those whose span, from
      smallest to largest key, shares a key with the span of level 0. Any other stays listed and its file is
      not touched. */
  lemma MergedIffShared(levels: LevelList, dir: Directory, timestamp: nat, sizing: Sizing, name: Name,
                        span: Range, other: Range)
    requires |levels| >= 2 && levels[0] != [] && AreTables(dir, levels[0]) && AreTables(dir, levels[1])
    requires NonEmpty(dir, levels[0]) && NonEmpty(dir, levels[1]) && name in levels[1]
    requires Spans(span, TablesAt(dir, levels[0])) && Spans(other, [TableAt(dir, name)])
    requires name !in levels[0] && name != LevelName(1, timestamp) && name != TmpName(LevelName(1, timestamp))
    ensures var o := CompactionOutcome(levels, dir, timestamp, sizing);
            && o.result.Ok?
            && (if exists key :: Inside(key, span) && Inside(key, other)
                then name !in o.levels[1] && name !in o.dir
                else name in o.levels[1] && name in o.dir && o.dir[name] == dir[name])
  {
    hide TableAt, Overlap, Inside, Spans, HullOf, WithOutput, LevelName, TmpName, IsTable;
    var l0 := TablesAt(dir, levels[0]);
    NonEmptyTables(dir, levels[0]);
    AreTablesSorted(dir, levels[0]);
    HullSpans(l0);
    SpanIsUnique(l0, span, HullOf(l0));
    RangeSpans(dir, levels[1], name, other);
    OverlapIffShared(span, other);
    SelectedIff(dir, levels[1], span, true, name);
    SelectedIff(dir, levels[1], span, false, name);
    OtherFilesStay(dir, levels[0] + L1Part(levels, dir, true), LevelName(1, timestamp), sizing, name);
  }

  lemma RangeSpans(dir: Directory, names: seq<Name>, name: Name, other: Range)
    requires AreTables(dir, names) && NonEmpty(dir, names) && name in names
    requires Spans(other, [TableAt(dir, name)])
    ensures name in dir && TableAt(dir, name) != [] && other == RangeOf(TableAt(dir, name))
    ensures AtMost(other.min, other.max)
  {
    hide OpenFile, TableOf, Spans, Sorted, Less;
    var i :| 0 <= i < |names| && names[i] == name;
    assert IsTable(dir, names[i]);
    var t := TableAt(dir, name);
    assert [t][..0] == [];
    HullSpans([t]);
    SpanIsUnique([t], other, HullOf([t]));
  }

  lemma OtherFilesStay(dir: Directory, inputs: seq<Name>, output: Name, sizing: Sizing, name: Name)
    requires name in dir && name != output && name != TmpName(output)
    ensures var after := WithOutput(dir, inputs, output, sizing) - SetOf(inputs);
            if name in inputs then name !in after else name in after && after[name] == dir[name]
  {
    hide TmpName, FileBytes, Compacted;
  }

  /** What no compaction changes: deeper levels, files outside the first two levels, and everything if level 0 is
      empty. One that had work and succeeded leaves level 0 empty and its output last in level 1. */
  lemma CompactionLeavesAlone(levels: LevelList, dir: Directory, timestamp: nat, sizing: Sizing, name: Name)
    ensures var before, output, o := Padded(levels), LevelName(1, timestamp),
                                     CompactionOutcome(levels, dir, timestamp, sizing);
            && |o.levels| == |before| && o.levels[2..] == before[2..]
            && (before[0] == [] ==> o.levels == before && o.dir == dir && o.result.Ok?)
            && (before[0] != [] && o.result.Ok? ==>
                  o.levels[0] == [] && o.levels[1] != [] && o.levels[1][|o.levels[1]| - 1] == output)
            && (name !in before[0] && name !in before[1] && name != output && name != TmpName(output) ==>
                  (name in o.dir <==> name in dir) && (name in dir ==> o.dir[name] == dir[name]))
  {
    hide TableAt, NonEmpty, L0Error, L1Error, LevelName, TmpName, Overlap, HullOf, Compacted, FileBytes, RangeOf;
    var before := Padded(levels);
    if before[0] != [] && NonEmpty(dir, before[0]) && NonEmpty(dir, before[1]) {
      NonEmptyTables(dir, before[0]);
      var hull := HullOf(TablesAt(dir, before[0]));
      SelectedIff(dir, before[1], hull, true, name);
      hide SelectNames;
    }
  }

  // ---------- the steps of a compaction ----------

  /** Full scan of one table for its smallest and largest key. */
  method KeyRange(reader: SsTableReader) returns (r: Result<Range, CompactionError>)
    ensures r == if RunOf(reader) == [] then Err(EmptySsTable) else Ok(RangeOf(RunOf(reader)))
  {
    hide Scan;
    var it := reader.Iter();
    var first := it.Next();
    if first.None? {
      return Err(EmptySsTable);
    }
    var last := first.value.key;
    ghost var run := RunOf(reader);
    ghost var seen := 1;
    var next := it.Next();
    while next.Some?
      invariant 1 <= seen <= |run| && last == run[seen - 1].key
      invariant next.Some? ==> seen < |run| && next.value == run[seen] && it.Rest() == run[seen + 1..]
      invariant next.None? ==> seen == |run|
      decreases |run| - seen
    {
      last := next.value.key;
      seen := seen + 1;
      next := it.Next();
    }
    r := Ok(Range(first.value.key, last));
  }

  /** Opens every file, or reports the first that does not open. */
  method OpenReaders(disk: Disk, names: seq<Name>) returns (r: Result<seq<SsTableReader>, CompactionError>)
    requires AreUsable(disk.files, names)
    ensures r == Err(CompactionError.Io) || r.Ok?
    ensures r.Ok? <==> AllOpen(disk.files, names)
    ensures r.Ok? ==> RunsOf(r.value) == TablesAt(disk.files, names)
  {
    hide OpenFile, Scan, Sorted;
    var readers: seq<SsTableReader> := [];
    for i := 0 to |names|
      invariant |readers| == i
      invariant forall j | 0 <= j < i :: Opens(disk.files, names[j])
      invariant forall j | 0 <= j < i :: RunOf(readers[j]) == TableAt(disk.files, names[j])
    {
      assert IsUsable(disk.files, names[i]);
      var reader := OpenReader(disk, names[i]);
      if reader.Err? {
        return Err(reader.error);
      }
      readers := readers + [reader.value];
    }
    assert RunsOf(readers) == TablesAt(disk.files, names);
    r := Ok(readers);
  }

  /** Opens one file; a missing or cut-off file is an I/O error. */
  method OpenReader(disk: Disk, name: Name) returns (r: Result<SsTableReader, CompactionError>)
    requires IsUsable(disk.files, name)
    ensures r.Ok? <==> Opens(disk.files, name)
    ensures r.Err? ==> r.error == CompactionError.Io
    ensures r.Ok? ==> RunOf(r.value) == TableAt(disk.files, name)
  {
    hide OpenFile, Scan, Sorted;
    if name !in disk.files {
      return Err(CompactionError.Io);
    }
    var outcome, reader := SsTableReader.Open(disk.files[name]);
    if outcome.Failed? {
      return Err(CompactionError.Io);
    }
    r := Ok(reader);
  }

  /** The combined range of level 0, or the error of its first empty table. */
  method CombinedRange(readers: seq<SsTableReader>) returns (r: Result<Range, CompactionError>)
    requires readers != []
    ensures r.Ok? <==> AllNonEmpty(RunsOf(readers))
    ensures r.Ok? ==> r.value == HullOf(RunsOf(readers))
    ensures r.Err? ==> r.error == EmptySsTable
  {
    hide RunOf, Less;
    ghost var runs := RunsOf(readers);
    var first := KeyRange(readers[0]);
    if first.Err? {
      assert runs[0] == [];
      return first;
    }
    var hull := first.value;
    assert runs[..1] == [runs[0]];
    for i := 1 to |readers|
      invariant forall j | 0 <= j < i :: runs[j] != []
      invariant hull == HullOf(runs[..i])
    {
      var range := KeyRange(readers[i]);
      if range.Err? {
        assert runs[i] == [];
        return range;
      }
      assert runs[..i + 1][..i] == runs[..i] && runs[..i + 1][i] == runs[i];
      hull := Hull(hull, range.value);
    }
    assert runs[..|readers|] == runs;
    r := Ok(hull);
  }

  lemma SelectNamesAppend(dir: Directory, names: seq<Name>, name: Name, hull: Range, meets: bool)
    requires NonEmpty(dir, names) && TableAt(dir, name) != []
    ensures NonEmpty(dir, names + [name])
    ensures SelectNames(dir, names + [name], hull, meets) ==
            if Overlap(hull, RangeOf(TableAt(dir, name))) == meets
            then SelectNames(dir, names, hull, meets) + [name] else SelectNames(dir, names, hull, meets)
    decreases |names|
  {
    hide Overlap, TableAt;
    if names == [] {
      assert names + [name] == [name] && [name][1..] == [];
    } else {
      assert (names + [name])[1..] == names[1..] + [name];
      SelectNamesAppend(dir, names[1..], name, hull, meets);
    }
  }

  lemma L1ErrorAt(dir: Directory, names: seq<Name>, i: nat)
    requires i < |names| && NonEmpty(dir, names[..i]) && TableAt(dir, names[i]) == []
    ensures !NonEmpty(dir, names) && L1Error(dir, names) ==
            if Opens(dir, names[i]) then EmptySsTable else CompactionError.Io
  {
    hide TableAt, Opens;
    if i > 0 {
      assert TableAt(dir, names[..i][0]) != [];
      assert names[1..][..i - 1] == names[..i][1..];
      L1ErrorAt(dir, names[1..], i - 1);
    }
  }

  /** Splits level 1 by overlap with `hull`, or reports its first file that does not open or is empty. */
  method SplitL1(disk: Disk, names: seq<Name>, hull: Range)
    returns (r: Result<(seq<Name>, seq<SsTableReader>, seq<Name>), CompactionError>)
    requires AreUsable(disk.files, names)
    ensures r.Ok? <==> NonEmpty(disk.files, names)
    ensures r.Err? ==> r.error == L1Error(disk.files, names)
    ensures r.Ok? ==>
              var (overlapping, readers, untouched) := r.value;
              && overlapping == SelectNames(disk.files, names, hull, true)
              && untouched == SelectNames(disk.files, names, hull, false)
              && RunsOf(readers) == TablesAt(disk.files, overlapping)
  {
    hide OpenFile, Scan, Sorted, Overlap, SelectNames, L1Error;
    var overlapping, untouched := [], [];
    var readers: seq<SsTableReader> := [];
    var dir := disk.files;
    SelectNamesEmpty(dir, hull);
    for i := 0 to |names|
      invariant NonEmpty(dir, names[..i])
      invariant overlapping == SelectNames(dir, names[..i], hull, true)
      invariant untouched == SelectNames(dir, names[..i], hull, false)
      invariant |readers| == |overlapping|
      invariant forall j | 0 <= j < |readers| :: RunOf(readers[j]) == TableAt(dir, overlapping[j])
    {
      assert IsUsable(dir, names[i]);
      var attempt := OpenReader(disk, names[i]);
      if attempt.Err? {
        L1ErrorAt(dir, names, i);
        return Err(attempt.error);
      }
      var reader := attempt.value;
      var range := KeyRange(reader);
      if range.Err? {
        L1ErrorAt(dir, names, i);
        return Err(range.error);
      }
      assert names[..i + 1] == names[..i] + [names[i]];
      SelectNamesAppend(dir, names[..i], names[i], hull, true);
      SelectNamesAppend(dir, names[..i], names[i], hull, false);
      if Overlap(hull, range.value) {
        overlapping := overlapping + [names[i]];
        readers := readers + [reader];
      } else {
        untouched := untouched + [names[i]];
      }
    }
    assert names[..|names|] == names;
    assert RunsOf(readers) == TablesAt(dir, overlapping);
    r := Ok((overlapping, readers, untouched));
  }

  lemma SelectNamesEmpty(dir: Directory, hull: Range)
    ensures SelectNames(dir, [], hull, true) == [] && SelectNames(dir, [], hull, false) == []
  {
  }

  method DeleteAll(disk: Disk, names: seq<Name>)
    modifies disk
    ensures disk.files == old(disk.files) - SetOf(names)
  {
    for i := 0 to |names|
      invariant disk.files == old(disk.files) - SetOf(names[..i])
    {
      assert SetOf(names[..i + 1]) == SetOf(names[..i]) + {names[i]} by {
        assert forall j | 0 <= j < i :: names[..i + 1][j] == names[..i][j];
        assert names[..i + 1][i] == names[i];
      }
      disk.files := disk.files - {names[i]};
    }
    assert names[..|names|] == names;
  }

  class LevelManager {
    var levels: LevelList

    constructor (levels: LevelList)
      ensures this.levels == levels
    {
      this.levels := levels;
    }

    method AddL0File(name: Name)
      modifies this
      ensures levels == WithL0File(old(levels), name)
    {
      if levels == [] {
        levels := levels + [[]];
      }
      assert [] + [name] == [name];
      levels := levels[0 := levels[0] + [name]];
    }

    method NeedsCompaction() returns (needs: bool)
      ensures needs <==> levels != [] && |levels[0]| >= 4
    {
      needs := levels != [] && |levels[0]| >= L0_COMPACTION_THRESHOLD;
    }

    /** `compact`, on any tracked files, sorted or not, that do not make `open` panic. */
    method Compact(disk: Disk, timestamp: nat, sizing: Sizing) returns (r: Result<(), CompactionError>)
      requires AreUsable(disk.files, Padded(levels)[0]) && AreUsable(disk.files, Padded(levels)[1])
      modifies this, disk
      ensures Outcome(levels, disk.files, r) == CompactionOutcome(old(levels), old(disk.files), timestamp, sizing)
    {
      hide TableAt, IsUsable, Opens, L1Error, FileBytes, Compacted, LevelName, HullOf, SelectNames, Overlap, RunOf;
      hide TotalRecords, TmpName;
      ghost var padded := Padded(levels);
      NonEmptyTables(disk.files, padded[0]);
      var dir := disk.files;
      while |levels| < 2
        invariant Padded(levels) == padded && disk.files == dir
        decreases 2 - |levels|
      {
        levels := levels + [[]];
      }
      if levels[0] == [] {
        return Ok(());
      }
      var l0Paths, l1Paths := levels[0], levels[1];
      levels := levels[0 := []];
      var attempt := OpenReaders(disk, l0Paths);
      if attempt.Err? {
        UnopenedIsEmpty(dir, l0Paths);
        return Err(attempt.error);
      }
      var l0Readers := attempt.value;
      var range := CombinedRange(l0Readers);
      if range.Err? {
        return Err(range.error);
      }
      var hull := range.value;

      levels := levels[1 := []];
      var split := SplitL1(disk, l1Paths, hull);
      if split.Err? {
        return Err(split.error);
      }
      var (overlapping, l1Readers, untouched) := split.value;
      var readers := l0Readers + l1Readers;
      var output := LevelName(1, timestamp);
      ReadersConcat(l0Readers, l1Readers);
      TablesAtConcat(dir, l0Paths, overlapping);
      MergeSsTables(disk, readers, output, sizing);
      DeleteAll(disk, l0Paths + overlapping);
      levels := levels[1 := untouched + [output]];
      r := Ok(());
    }
  }

  lemma UnopenedIsEmpty(dir: Directory, names: seq<Name>)
    requires !AllOpen(dir, names)
    ensures !NonEmpty(dir, names)
  {
    hide OpenFile, Scan;
    var i :| 0 <= i < |names| && !Opens(dir, names[i]);
    assert TableAt(dir, names[i]) == [];
  }

  function WithL0File(levels: LevelList, name: Name): LevelList {
    if levels == [] then [[name]] else levels[0 := levels[0] + [name]]
  }

  lemma ReadersConcat(a: seq<SsTableReader>, b: seq<SsTableReader>)
    ensures RunsOf(a + b) == RunsOf(a) + RunsOf(b)
  {
    hide RunOf;
  }
}
