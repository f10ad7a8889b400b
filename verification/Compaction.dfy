/** The k-way merge of compaction: a heap of one pending record per input. */
module Compaction {
  import opened Bytes
  import opened Names
  import opened Storage
  import opened Tables
  import opened SsTableFormat
  import opened SsTableWriter
  import opened SsTableReader

  // ---------- what the merge computes ----------

  /** The union of two sorted tables; the first wins a shared key. */
  function MergeTwo(a: Table, b: Table): (r: Table)
    ensures |r| <= |a| + |b|
  {
    if a == [] then b
    else if b == [] then a
    else if a[0].key == b[0].key then [a[0]] + MergeTwo(a[1..], b[1..])
    else if Less(a[0].key, b[0].key) then [a[0]] + MergeTwo(a[1..], b)
    else [b[0]] + MergeTwo(a, b[1..])
  }

  function MergeAll(runs: seq<Table>): Table {
    if runs == [] then [] else MergeTwo(runs[0], MergeAll(runs[1..]))
  }

  function DropTombstones(t: Table): (r: Table)
    ensures |r| <= |t|
  {
    if t == [] then [] else
    var rest := DropTombstones(t[1..]);
    if t[0].value == TOMBSTONE then rest else [t[0]] + rest
  }

  /** The reference result: merge the inputs two by two, then drop the tombstones. */
  function Compacted(runs: seq<Table>): Table {
    DropTombstones(MergeAll(runs))
  }

  function TotalRecords(runs: seq<Table>): nat {
    if runs == [] then 0 else |runs[0]| + TotalRecords(runs[1..])
  }

  /** Totals add up, and that of one run is its length. */
  lemma {:induction false} TotalRecordsAdds(a: seq<Table>, b: seq<Table>)
    ensures TotalRecords(a + b) == TotalRecords(a) + TotalRecords(b)
    ensures forall t: Table :: TotalRecords([t]) == |t|
  {
    forall t: Table ensures TotalRecords([t]) == |t| {
      assert [t][1..] == [];
    }
    if a == [] {
      assert a + b == b;
    } else {
      assert (a + b)[1..] == a[1..] + b;
      TotalRecordsAdds(a[1..], b);
    }
  }

  predicate AllSorted(runs: seq<Table>) {
    forall i | 0 <= i < |runs| :: Sorted(runs[i])
  }

  /** Every key of `t` is above `key`. */
  predicate Above(t: Table, key: Bytes) {
    forall i | 0 <= i < |t| :: Less(key, t[i].key)
  }

  lemma SortedCons(r: Record, t: Table)
    requires Sorted(t) && Above(t, r.key)
    ensures Sorted([r] + t)
  {
    hide Less;
    var u := [r] + t;
    forall i, j | 0 <= i < j < |u| ensures Less(u[i].key, u[j].key) {
      assert u[j] == t[j - 1];
      assert i > 0 ==> u[i] == t[i - 1];
    }
  }

  lemma AboveTail(t: Table)
    requires Sorted(t) && t != []
    ensures Sorted(t[1..]) && Above(t[1..], t[0].key)
  {
    hide Less;
  }

  lemma AboveAll(t: Table, key: Bytes)
    requires Sorted(t) && (t == [] || Less(key, t[0].key))
    ensures Above(t, key)
  {
    hide Less;
    LessIsStrictTotal();
    forall i | 0 <= i < |t| ensures Less(key, t[i].key) {
      assert i == 0 || Less(t[0].key, t[i].key);
    }
  }

  lemma {:induction false} MergeTwoAbove(a: Table, b: Table, key: Bytes)
    requires Above(a, key) && Above(b, key)
    ensures Above(MergeTwo(a, b), key)
  {
    hide Less;
    if a != [] && b != [] {
      if a[0].key == b[0].key {
        MergeTwoAbove(a[1..], b[1..], key);
      } else if Less(a[0].key, b[0].key) {
        MergeTwoAbove(a[1..], b, key);
      } else {
        MergeTwoAbove(a, b[1..], key);
      }
    }
  }

  lemma {:induction false} MergeTwoSorted(a: Table, b: Table)
    requires Sorted(a) && Sorted(b)
    ensures Sorted(MergeTwo(a, b))
  {
    hide Less, Sorted, Above;
    if a != [] && b != [] {
      LessConnected(a[0].key, b[0].key);
      AboveTail(a);
      AboveTail(b);
      if a[0].key == b[0].key {
        MergeTwoSorted(a[1..], b[1..]);
        MergeTwoAbove(a[1..], b[1..], a[0].key);
        SortedCons(a[0], MergeTwo(a[1..], b[1..]));
      } else if Less(a[0].key, b[0].key) {
        MergeTwoSorted(a[1..], b);
        AboveAll(b, a[0].key);
        MergeTwoAbove(a[1..], b, a[0].key);
        SortedCons(a[0], MergeTwo(a[1..], b));
      } else {
        MergeTwoSorted(a, b[1..]);
        AboveAll(a, b[0].key);
        MergeTwoAbove(a, b[1..], b[0].key);
        SortedCons(b[0], MergeTwo(a, b[1..]));
      }
    }
  }

  lemma {:induction false} MergeTwoLookup(a: Table, b: Table, key: Bytes)
    requires Sorted(a) && Sorted(b)
    ensures Lookup(MergeTwo(a, b), key) == if Lookup(a, key).Some? then Lookup(a, key) else Lookup(b, key)
  {
    hide Less, Sorted;
    if a != [] && b != [] {
      LessConnected(a[0].key, b[0].key);
      AboveTail(a);
      AboveTail(b);
      if a[0].key == b[0].key {
        MergeTwoLookup(a[1..], b[1..], key);
      } else if Less(a[0].key, b[0].key) {
        MergeTwoLookup(a[1..], b, key);
      } else {
        MergeTwoLookup(a, b[1..], key);
        LookupStops(a, b[0].key);
      }
    }
  }

  lemma {:induction false} MergeAllLookup(runs: seq<Table>, key: Bytes)
    requires AllSorted(runs)
    ensures Sorted(MergeAll(runs))
    ensures Lookup(MergeAll(runs), key) == FirstHit(runs, key)
  {
    hide Sorted, MergeTwo;
    if runs != [] {
      MergeAllLookup(runs[1..], key);
      MergeTwoSorted(runs[0], MergeAll(runs[1..]));
      MergeTwoLookup(runs[0], MergeAll(runs[1..]), key);
    } else {
      EmptyIsSorted();
    }
  }

  lemma EmptyIsSorted()
    ensures Sorted([])
  {
  }

  lemma {:induction false} DropTombstonesAbove(t: Table, key: Bytes)
    requires Above(t, key)
    ensures Above(DropTombstones(t), key)
  {
    hide Less;
    if t != [] {
      DropTombstonesAbove(t[1..], key);
    }
  }

  lemma {:induction false} DropTombstonesLookup(t: Table, key: Bytes)
    requires Sorted(t)
    ensures Sorted(DropTombstones(t))
    ensures Lookup(DropTombstones(t), key) == Live(Lookup(t, key))
  {
    hide Less, Sorted, Above;
    if t != [] {
      AboveTail(t);
      DropTombstonesLookup(t[1..], key);
      DropTombstonesAbove(t[1..], t[0].key);
      SortedCons(t[0], DropTombstones(t[1..]));
      if key == t[0].key {
        AboveHasNot(t[1..], key);
      }
    } else {
      EmptyIsSorted();
    }
  }

  lemma AboveHasNot(t: Table, key: Bytes)
    requires Above(t, key)
    ensures Lookup(t, key).None?
  {
    hide Less;
    LessIrreflexive(key);
    LookupIffHasKey(t, key);
  }

  /** The merged table: sorted, tombstone-free, and for every key the record of the lowest-numbered
      input that has the key, unless that record is a tombstone. */
  lemma CompactedLookup(runs: seq<Table>, key: Bytes)
    requires AllSorted(runs)
    ensures Sorted(Compacted(runs))
    ensures Lookup(Compacted(runs), key) == Live(FirstHit(runs, key))
  {
    hide Sorted, MergeAll, DropTombstones;
    MergeAllLookup(runs, key);
    DropTombstonesLookup(MergeAll(runs), key);
  }

  /** On sorted inputs the result is determined: no other sorted table has the live first records, and no more. */
  lemma CompactedIsUnique(t: Table, runs: seq<Table>)
    requires AllSorted(runs) && Sorted(t) && forall key :: Lookup(t, key) == Live(FirstHit(runs, key))
    ensures t == Compacted(runs)
  {
    hide Compacted, AllSorted, FirstHit, Sorted;
    forall key ensures Lookup(t, key) == Lookup(Compacted(runs), key) {
      CompactedLookup(runs, key);
    }
    CompactedLookup(runs, []);
    SortedTableIsUnique(t, Compacted(runs));
  }

  /** When a merge writes a file without records: exactly when no key has a live first record. */
  lemma CompactedIsEmptyIff(runs: seq<Table>)
    requires AllSorted(runs)
    ensures Compacted(runs) == [] <==> forall key :: Live(FirstHit(runs, key)).None?
  {
    hide Compacted, AllSorted, FirstHit;
    forall key ensures Lookup(Compacted(runs), key) == Live(FirstHit(runs, key)) {
      CompactedLookup(runs, key);
    }
    if Compacted(runs) != [] {
      CompactedLookup(runs, []);
      LookupAt(Compacted(runs), 0);
      var key := Compacted(runs)[0].key;
      assert Lookup(Compacted(runs), key) == Live(FirstHit(runs, key));
      assert !Live(FirstHit(runs, key)).None?;
    } else {
      forall key ensures Live(FirstHit(runs, key)).None? {
        assert Lookup(Compacted(runs), key).None?;
      }
    }
  }

  lemma {:induction false} CompactedIsBounded(runs: seq<Table>)
    ensures |Compacted(runs)| <= |MergeAll(runs)| <= TotalRecords(runs)
  {
    if runs != [] {
      CompactedIsBounded(runs[1..]);
    }
  }

  // ---------- the heap ----------

  datatype HeapEntry = HeapEntry(key: Bytes, value: Bytes, source: nat)

  predicate IsMinimal(e: HeapEntry, heap: multiset<HeapEntry>) {
    e in heap && forall f | f in heap :: !Less(f.key, e.key)
  }

  lemma MinimalOfPush(rest: multiset<HeapEntry>, m: HeapEntry, e: HeapEntry)
    requires IsMinimal(m, rest)
    ensures IsMinimal(if Less(e.key, m.key) then e else m, rest + multiset{e})
  {
    hide Less;
    LessIsStrictTotal();
  }

  lemma MinimalAlone(e: HeapEntry)
    ensures IsMinimal(e, multiset{e})
  {
    hide Less;
    LessIrreflexive(e.key);
  }

  lemma {:induction false} MinimalExists(heap: multiset<HeapEntry>)
    requires heap != multiset{}
    ensures exists e :: IsMinimal(e, heap)
    decreases |heap|
  {
    hide Less, IsMinimal;
    var e :| e in heap;
    var rest := heap - multiset{e};
    assert heap == rest + multiset{e};
    if rest == multiset{} {
      assert heap == multiset{e};
      MinimalAlone(e);
    } else {
      MinimalExists(rest);
      var m :| IsMinimal(m, rest);
      MinimalOfPush(rest, m, e);
    }
  }

  /** Any entry with the smallest key: the heap orders by key alone, so ties are arbitrary. */
  method Peek(heap: multiset<HeapEntry>) returns (e: HeapEntry)
    requires heap != multiset{}
    ensures IsMinimal(e, heap)
  {
    MinimalExists(heap);
    e :| IsMinimal(e, heap);
  }

  // ---------- bookkeeping ----------

  /** `done[i]` records of input `i` are merged, `taken[i]` have been pulled from its iterator; the
      difference is the one pending record in the heap. */
  ghost predicate Counts(runs: seq<Table>, taken: seq<nat>, done: seq<nat>) {
    && |runs| == |taken| == |done|
    && forall i | 0 <= i < |runs| :: done[i] <= taken[i] <= done[i] + 1 && taken[i] <= |runs[i]|
  }

  /** Every input has its next record in the heap unless it is exhausted. */
  ghost predicate Primed(runs: seq<Table>, taken: seq<nat>, done: seq<nat>)
    requires Counts(runs, taken, done)
  {
    forall i | 0 <= i < |runs| :: done[i] < taken[i] || done[i] == |runs[i]|
  }

  ghost predicate Pending(e: HeapEntry, runs: seq<Table>, taken: seq<nat>, done: seq<nat>)
    requires Counts(runs, taken, done)
  {
    e.source < |runs| && done[e.source] < taken[e.source] && runs[e.source][done[e.source]] == Record(e.key, e.value)
  }

  ghost predicate HeapHolds(heap: multiset<HeapEntry>, runs: seq<Table>, taken: seq<nat>, done: seq<nat>)
    requires Counts(runs, taken, done)
  {
    forall e :: heap[e] == if Pending(e, runs, taken, done) then 1 else 0
  }

  /** What is still to be merged of every input. */
  ghost function Suffixes(runs: seq<Table>, done: seq<nat>): seq<Table>
    requires |runs| == |done| && forall i | 0 <= i < |runs| :: done[i] <= |runs[i]|
  {
    seq(|runs|, i requires 0 <= i < |runs| => runs[i][done[i]..])
  }

  /** One round of the merge: exactly the inputs whose next key is `key` have advanced. */
  ghost predicate Round(runs: seq<Table>, before: seq<nat>, after: seq<nat>, key: Bytes) {
    && |runs| == |before| == |after|
    && (forall i | 0 <= i < |runs| :: before[i] <= after[i] <= |runs[i]|)
    && (forall i | 0 <= i < |runs| :: after[i] == before[i] + 1 || after[i] == before[i])
    && (forall i | 0 <= i < |runs| :: after[i] == before[i] + 1 ==> runs[i][before[i]].key == key)
    && (forall i | 0 <= i < |runs| && after[i] == before[i] && before[i] < |runs[i]| ::
          Less(key, runs[i][before[i]].key))
    && exists i :: 0 <= i < |runs| && after[i] == before[i] + 1
  }

  /** `best` is the lowest-numbered input that advanced. */
  ghost predicate Best(runs: seq<Table>, before: seq<nat>, after: seq<nat>, best: nat)
    requires |runs| == |before| == |after|
  {
    best < |runs| && after[best] == before[best] + 1 && forall i | 0 <= i < best :: after[i] == before[i]
  }

  /** Every run that is not exhausted starts above `key`. */
  ghost predicate HeadsAbove(runs: seq<Table>, key: Bytes) {
    forall i | 0 <= i < |runs| && runs[i] != [] :: Less(key, runs[i][0].key)
  }

  lemma {:induction false} MergeStartsAbove(runs: seq<Table>, key: Bytes)
    requires HeadsAbove(runs, key)
    ensures MergeAll(runs) != [] ==> Less(key, MergeAll(runs)[0].key)
  {
    hide Less;
    if runs != [] {
      assert HeadsAbove(runs[1..], key) by {
        assert forall i | 0 <= i < |runs| - 1 :: runs[1..][i] == runs[i + 1];
      }
      MergeStartsAbove(runs[1..], key);
    }
  }

  /** Runs from which one round takes the key: a run either starts with it and loses that record, or starts above
      it and stays. */
  ghost predicate TakesKey(runs: seq<Table>, rest: seq<Table>, key: Bytes) {
    && |runs| == |rest|
    && forall i | 0 <= i < |runs| ::
         (runs[i] != [] && runs[i][0].key == key && rest[i] == runs[i][1..]) ||
         (rest[i] == runs[i] && (runs[i] != [] ==> Less(key, runs[i][0].key)))
  }

  /** The merge of such runs starts with the record of the lowest-numbered run that has the key. No input needs
      to be sorted for this. */
  lemma {:induction false} TakenIsFirst(runs: seq<Table>, rest: seq<Table>, key: Bytes, best: nat)
    requires TakesKey(runs, rest, key) && best < |runs| && runs[best] != [] && runs[best][0].key == key
    requires forall i | 0 <= i < best :: rest[i] == runs[i]
    ensures MergeAll(runs) == [runs[best][0]] + MergeAll(rest)
    decreases |runs|, 0
  {
    hide Less, MergeTwo;
    LessIrreflexive(key);
    var tail, left := runs[1..], rest[1..];
    assert TakesKey(tail, left, key) by {
      assert forall i | 0 <= i < |runs| - 1 :: tail[i] == runs[i + 1] && left[i] == rest[i + 1];
    }
    var merged := MergeAll(tail);
    if best > 0 {
      assert tail[best - 1] == runs[best];
      assert forall i | 0 <= i < best - 1 :: left[i] == tail[i];
      TakenIsFirst(tail, left, key, best - 1);
      TakeFromSecond(runs[0], merged, key);
    } else {
      SomeTaken(tail, left, key);
      TakeFromFirst(runs[0], merged, MergeAll(left), key);
    }
  }

  /** The lower-numbered run has the key: it gives the record, and the other loses its record of the key. */
  lemma TakeFromFirst(a: Table, b: Table, left: Table, key: Bytes)
    requires a != [] && a[0].key == key
    requires (b != [] && b[0].key == key && left == b[1..]) || (left == b && (b != [] ==> Less(key, b[0].key)))
    ensures MergeTwo(a, b) == [a[0]] + MergeTwo(a[1..], left)
  {
    hide Less;
    LessIrreflexive(key);
    assert a == [a[0]] + a[1..];
  }

  /** The lower-numbered run starts above the key: the other gives the record. */
  lemma TakeFromSecond(a: Table, b: Table, key: Bytes)
    requires a == [] || Less(key, a[0].key)
    requires b != [] && b[0].key == key
    ensures MergeTwo(a, b) == [b[0]] + MergeTwo(a, b[1..])
  {
    hide Less;
    LessIsStrictTotal();
    assert b == [b[0]] + b[1..];
  }

  /** The merge of runs from which a round takes the key loses its first record, or starts above the key. */
  lemma {:induction false} SomeTaken(runs: seq<Table>, rest: seq<Table>, key: Bytes)
    requires TakesKey(runs, rest, key)
    ensures var merged, left := MergeAll(runs), MergeAll(rest);
            || (merged != [] && merged[0].key == key && left == merged[1..])
            || (left == merged && (merged != [] ==> Less(key, merged[0].key)))
    decreases |runs|, 1
  {
    hide Less, MergeTwo;
    LessIrreflexive(key);
    if i :| 0 <= i < |runs| && rest[i] != runs[i] {
      var best := FirstTaken(runs, rest, key, i);
      TakenIsFirst(runs, rest, key, best);
    } else {
      assert rest == runs;
      assert HeadsAbove(runs, key) by { UntakenAreAbove(runs, key); }
      MergeStartsAbove(runs, key);
    }
  }

  lemma UntakenAreAbove(runs: seq<Table>, key: Bytes)
    requires TakesKey(runs, runs, key)
    ensures HeadsAbove(runs, key)
  {
    hide Less;
    forall i | 0 <= i < |runs| && runs[i] != [] ensures Less(key, runs[i][0].key) {
      assert |runs[i][1..]| < |runs[i]|;
    }
  }

  lemma FirstTaken(runs: seq<Table>, rest: seq<Table>, key: Bytes, i: nat) returns (best: nat)
    requires TakesKey(runs, rest, key) && i < |runs| && rest[i] != runs[i]
    ensures best < |runs| && runs[best] != [] && runs[best][0].key == key
    ensures forall j | 0 <= j < best :: rest[j] == runs[j]
  {
    hide Less;
    if j: nat :| j < i && rest[j] != runs[j] {
      best := FirstTaken(runs, rest, key, j);
    } else {
      best := i;
    }
  }

  /** What the output so far is: with the merge of what is left, the reference result. */
  ghost predicate OutputIs(output: Table, runs: seq<Table>, done: seq<nat>)
    requires |runs| == |done| && forall i | 0 <= i < |runs| :: done[i] <= |runs[i]|
  {
    output + DropTombstones(MergeAll(Suffixes(runs, done))) == Compacted(runs)
  }

  lemma RoundTakesKey(runs: seq<Table>, before: seq<nat>, after: seq<nat>, key: Bytes, best: nat)
    requires Round(runs, before, after, key) && Best(runs, before, after, best)
    ensures var value := BestValue(runs, before, after, key, best);
            MergeAll(Suffixes(runs, before)) == [Record(key, value)] + MergeAll(Suffixes(runs, after))
  {
    hide Less, MergeAll;
    var p, q := Suffixes(runs, before), Suffixes(runs, after);
    assert forall i | 0 <= i < |runs| && before[i] < |runs[i]| :: p[i][0] == runs[i][before[i]];
    assert forall i | 0 <= i < |runs| && before[i] < |runs[i]| :: p[i][1..] == runs[i][before[i] + 1..];
    TakenIsFirst(p, q, key, best);
  }

  /** A round followed by adding its record, unless that is a tombstone, keeps the output right. */
  lemma RoundKeepsOutput(output: Table, runs: seq<Table>, before: seq<nat>, after: seq<nat>, key: Bytes, best: nat)
    requires Round(runs, before, after, key) && Best(runs, before, after, best) && OutputIs(output, runs, before)
    ensures var value := BestValue(runs, before, after, key, best);
            OutputIs(if value == TOMBSTONE then output else output + [Record(key, value)], runs, after)
  {
    hide Less, MergeAll, Suffixes, Compacted, Best;
    RoundTakesKey(runs, before, after, key, best);
    var r, rest := Record(key, BestValue(runs, before, after, key, best)), MergeAll(Suffixes(runs, after));
    assert ([r] + rest)[1..] == rest;
  }

  ghost function BestValue(runs: seq<Table>, before: seq<nat>, after: seq<nat>, key: Bytes, best: nat): (value: Bytes)
    requires Round(runs, before, after, key) && Best(runs, before, after, best)
    ensures before[best] < |runs[best]| && runs[best][before[best]] == Record(key, value)
  {
    runs[best][before[best]].value
  }

  // ---------- the loops ----------

  ghost predicate Distinct(s: seq<nat>) {
    forall i, j | 0 <= i < j < |s| :: s[i] != s[j]
  }

  /** The inputs listed in `consumed` are the ones that have advanced. */
  ghost predicate Advanced(consumed: seq<nat>, before: seq<nat>, after: seq<nat>)
    requires |before| == |after|
  {
    && Distinct(consumed)
    && (forall i | 0 <= i < |before| :: after[i] == if i in consumed then before[i] + 1 else before[i])
    && (forall i | 0 <= i < |consumed| :: consumed[i] < |before|)
  }

  /** Takes one pending record out of the heap. */
  lemma PopPending(heap: multiset<HeapEntry>, e: HeapEntry, runs: seq<Table>, taken: seq<nat>, done: seq<nat>)
    requires Counts(runs, taken, done) && HeapHolds(heap, runs, taken, done) && e in heap
    ensures Pending(e, runs, taken, done)
    ensures var after := done[e.source := done[e.source] + 1];
            Counts(runs, taken, after) && HeapHolds(heap - multiset{e}, runs, taken, after)
  {
    var after := done[e.source := done[e.source] + 1];
    forall f ensures (heap - multiset{e})[f] == if Pending(f, runs, taken, after) then 1 else 0 {
      assert heap[f] == if Pending(f, runs, taken, done) then 1 else 0;
      if f.source == e.source && f != e {
        assert heap[f] == 0;
      }
    }
  }

  /** Puts the next record of an input into the heap. */
  lemma PushPending(heap: multiset<HeapEntry>, s: nat, runs: seq<Table>, taken: seq<nat>, done: seq<nat>)
    requires Counts(runs, taken, done) && HeapHolds(heap, runs, taken, done)
    requires s < |runs| && taken[s] == done[s] < |runs[s]|
    ensures var r, after := runs[s][done[s]], taken[s := taken[s] + 1];
            Counts(runs, after, done) &&
            HeapHolds(heap + multiset{HeapEntry(r.key, r.value, s)}, runs, after, done)
  {
    var r, after := runs[s][done[s]], taken[s := taken[s] + 1];
    forall f ensures (heap + multiset{HeapEntry(r.key, r.value, s)})[f] ==
        if Pending(f, runs, after, done) then 1 else 0 {
      assert heap[f] == if Pending(f, runs, taken, done) then 1 else 0;
    }
  }

  /** The inputs drained so far all had `key` next, and `best`, the lowest of them, gave `value`. */
  ghost predicate Drained(runs: seq<Table>, before: seq<nat>, done: seq<nat>, consumed: seq<nat>,
                          key: Bytes, value: Bytes, best: nat)
    requires |runs| == |before| == |done|
  {
    && Advanced(consumed, before, done)
    && (forall i | 0 <= i < |consumed| :: before[consumed[i]] < |runs[consumed[i]]|)
    && (forall i | 0 <= i < |consumed| :: runs[consumed[i]][before[consumed[i]]].key == key)
    && (forall i | 0 <= i < |consumed| :: best <= consumed[i])
    && best in consumed && runs[best][before[best]] == Record(key, value)
  }

  lemma DrainFirst(runs: seq<Table>, taken: seq<nat>, before: seq<nat>, e: HeapEntry)
    requires Counts(runs, taken, before) && Pending(e, runs, taken, before)
    ensures Drained(runs, before, before[e.source := before[e.source] + 1], [e.source], e.key, e.value, e.source)
  {
  }

  lemma DrainNext(runs: seq<Table>, taken: seq<nat>, before: seq<nat>, done: seq<nat>, consumed: seq<nat>,
                  key: Bytes, value: Bytes, best: nat, e: HeapEntry)
    requires Counts(runs, taken, before) && Counts(runs, taken, done)
    requires Drained(runs, before, done, consumed, key, value, best)
    requires Pending(e, runs, taken, done) && e.key == key
    ensures var after := done[e.source := done[e.source] + 1];
            if e.source < best then Drained(runs, before, after, consumed + [e.source], key, e.value, e.source)
            else Drained(runs, before, after, consumed + [e.source], key, value, best)
  {
    AdvanceOneMore(runs, taken, before, done, consumed, e);
    hide Advanced;
    var more := consumed + [e.source];
    assert forall i | 0 <= i < |more| :: more[i] == if i < |consumed| then consumed[i] else e.source;
    assert more[|consumed|] == e.source && best in more;
  }

  lemma AdvanceOneMore(runs: seq<Table>, taken: seq<nat>, before: seq<nat>, done: seq<nat>, consumed: seq<nat>,
                       e: HeapEntry)
    requires Counts(runs, taken, before) && Counts(runs, taken, done)
    requires Advanced(consumed, before, done) && Pending(e, runs, taken, done)
    ensures e.source !in consumed && done[e.source] == before[e.source]
    ensures Advanced(consumed + [e.source], before, done[e.source := done[e.source] + 1])
  {
    var more := consumed + [e.source];
    assert e.source !in consumed;
    forall i | 0 <= i < |before| ensures i in more <==> i in consumed || i == e.source { }
  }

  lemma DrainIsRound(runs: seq<Table>, taken: seq<nat>, before: seq<nat>, done: seq<nat>, consumed: seq<nat>,
                     key: Bytes, value: Bytes, best: nat)
    requires Counts(runs, taken, before) && Counts(runs, taken, done)
    requires Drained(runs, before, done, consumed, key, value, best)
    requires forall i | 0 <= i < |runs| && done[i] == before[i] && before[i] < |runs[i]| ::
               Less(key, runs[i][before[i]].key)
    ensures Round(runs, before, done, key) && Best(runs, before, done, best)
  {
    hide Less;
    assert done[best] == before[best] + 1;
    forall i | 0 <= i < |runs| && done[i] == before[i] + 1
      ensures runs[i][before[i]].key == key && best <= i
    {
      assert i in consumed;
    }
  }

  /** Pops the smallest key and every other entry that shares it, keeping the value of the lowest
      source: the drain of the merge loop. */
  method DrainKey(start: multiset<HeapEntry>, ghost runs: seq<Table>, ghost taken: seq<nat>, ghost before: seq<nat>)
    returns (key: Bytes, value: Bytes, consumed: seq<nat>, heap: multiset<HeapEntry>, ghost done: seq<nat>,
          ghost best: nat)
    requires start != multiset{}
    requires Counts(runs, taken, before) && Primed(runs, taken, before) && HeapHolds(start, runs, taken, before)
    ensures Counts(runs, taken, done) && HeapHolds(heap, runs, taken, done)
    ensures Round(runs, before, done, key) && Best(runs, before, done, best) && Advanced(consumed, before, done)
    ensures before[best] < |runs[best]| && runs[best][before[best]] == Record(key, value)
    ensures forall i: nat :: i in consumed <==> IsNext(runs, before, i, key)
    ensures forall i: nat | IsLowest(consumed, i) :: IsNext(runs, before, i, key) && runs[i][before[i]].value == value
  {
    hide Less, HeapHolds, Primed, Counts, Drained, Pending, Round, Best, Advanced;
    var first := Peek(start);
    CountsLengths(runs, taken, before);
    PopPending(start, first, runs, taken, before);
    DrainFirst(runs, taken, before, first);
    heap := start - multiset{first};
    key, value := first.key, first.value;
    var bestSource := first.source;
    consumed := [first.source];
    done := before[first.source := before[first.source] + 1];

    while heap != multiset{}
      invariant Counts(runs, taken, done) && |runs| == |before| == |done|
      invariant HeapHolds(heap, runs, taken, done) && heap <= start
      invariant Drained(runs, before, done, consumed, key, value, bestSource)
      decreases |heap|
    {
      var next := Peek(heap);
      if next.key != key {
        break;
      }
      PopPending(heap, next, runs, taken, done);
      DrainNext(runs, taken, before, done, consumed, key, value, bestSource, next);
      heap := heap - multiset{next};
      done := done[next.source := done[next.source] + 1];
      consumed := consumed + [next.source];
      if next.source < bestSource {
        value := next.value;
        bestSource := next.source;
      }
    }
    best := bestSource;
    forall i | 0 <= i < |runs| && done[i] == before[i] && before[i] < |runs[i]|
      ensures Less(key, runs[i][before[i]].key)
    {
      RestAbove(start, heap, first, runs, taken, before, done, i);
    }
    DrainIsRound(runs, taken, before, done, consumed, key, value, best);
    DrainedFacts(runs, before, done, consumed, key, value, best);
    ConsumedAreNext(runs, before, done, consumed, key, best);
  }

  /** The next record of this input has the key. */
  predicate IsNext(runs: seq<Table>, before: seq<nat>, i: nat, key: Bytes) {
    i < |runs| && i < |before| && before[i] < |runs[i]| && runs[i][before[i]].key == key
  }

  predicate IsLowest(sources: seq<nat>, i: nat) {
    i in sources && forall j | j in sources :: i <= j
  }

  lemma ConsumedAreNext(runs: seq<Table>, before: seq<nat>, done: seq<nat>, consumed: seq<nat>, key: Bytes, best: nat)
    requires Round(runs, before, done, key) && Best(runs, before, done, best) && Advanced(consumed, before, done)
    ensures forall i: nat :: i in consumed <==> IsNext(runs, before, i, key)
    ensures forall i: nat | IsLowest(consumed, i) :: i == best
  {
    hide Less;
    LessIrreflexive(key);
    forall i | i in consumed ensures i < |runs| {
      var k :| 0 <= k < |consumed| && consumed[k] == i;
    }
  }

  lemma CountsLengths(runs: seq<Table>, taken: seq<nat>, done: seq<nat>)
    requires Counts(runs, taken, done)
    ensures |runs| == |taken| == |done|
  {
  }

  lemma DrainedFacts(runs: seq<Table>, before: seq<nat>, done: seq<nat>, consumed: seq<nat>,
                     key: Bytes, value: Bytes, best: nat)
    requires |runs| == |before| == |done| && Drained(runs, before, done, consumed, key, value, best)
    ensures Advanced(consumed, before, done)
    ensures best < |runs| && before[best] < |runs[best]| && runs[best][before[best]] == Record(key, value)
  {
  }

  /** After the drain, an input that has not advanced has a larger next key. */
  lemma RestAbove(start: multiset<HeapEntry>, heap: multiset<HeapEntry>, first: HeapEntry,
                  runs: seq<Table>, taken: seq<nat>, before: seq<nat>, done: seq<nat>, i: nat)
    requires Counts(runs, taken, before) && Primed(runs, taken, before) && HeapHolds(start, runs, taken, before)
    requires Counts(runs, taken, done) && HeapHolds(heap, runs, taken, done)
    requires IsMinimal(first, start)
    requires heap == multiset{} || exists e :: IsMinimal(e, heap) && e.key != first.key
    requires heap <= start
    requires i < |runs| && done[i] == before[i] < |runs[i]|
    ensures Less(first.key, runs[i][before[i]].key)
  {
    hide Less;
    LessIsStrictTotal();
    var e := HeapEntry(runs[i][before[i]].key, runs[i][before[i]].value, i);
    assert Pending(e, runs, taken, done);
    assert heap[e] == 1 && e in heap && e in start;
    var m :| IsMinimal(m, heap) && m.key != first.key;
    assert m in start;
  }

  // ---------- iterators ----------

  ghost function RunOf(reader: SsTableReader): Table {
    Scan(reader.file, 0, reader.dataEnd)
  }

  ghost function RunsOf(readers: seq<SsTableReader>): (runs: seq<Table>)
    ensures |runs| == |readers|
  {
    seq(|readers|, i requires 0 <= i < |readers| => RunOf(readers[i]))
  }

  ghost predicate AllDistinct(iters: seq<SsTableIter>) {
    forall i, j | 0 <= i < j < |iters| :: iters[i] != iters[j]
  }

  /** Iterator `i` has yielded `taken[i]` records of run `i`. */
  ghost predicate IteratorsAt(iters: seq<SsTableIter>, runs: seq<Table>, taken: seq<nat>)
    reads iters
  {
    && |iters| == |runs| == |taken|
    && forall i | 0 <= i < |iters| :: taken[i] <= |runs[i]| && iters[i].Rest() == runs[i][taken[i]..]
  }

  /** Exactly the listed inputs wait for their next record. */
  ghost predicate Waiting(sources: seq<nat>, runs: seq<Table>, taken: seq<nat>, done: seq<nat>)
    requires Counts(runs, taken, done)
  {
    && (forall i | 0 <= i < |runs| && i in sources :: taken[i] == done[i])
    && (forall i | 0 <= i < |runs| && i !in sources :: done[i] < taken[i] || done[i] == |runs[i]|)
  }

  lemma WaitingNext(sources: seq<nat>, n: nat, runs: seq<Table>, taken: seq<nat>, done: seq<nat>)
    requires Counts(runs, taken, done) && Distinct(sources) && n < |sources| && sources[n] < |runs|
    requires Waiting(sources[n..], runs, taken, done)
    ensures var s := sources[n];
            && taken[s] == done[s]
            && (done[s] == |runs[s]| ==> Waiting(sources[n + 1..], runs, taken, done))
            && (done[s] < |runs[s]| ==> Counts(runs, taken[s := taken[s] + 1], done) &&
                                        Waiting(sources[n + 1..], runs, taken[s := taken[s] + 1], done))
  {
    assert sources[n..] == [sources[n]] + sources[n + 1..];
    assert sources[n] !in sources[n + 1..];
  }

  lemma NoneWaiting(runs: seq<Table>, taken: seq<nat>, done: seq<nat>)
    requires Counts(runs, taken, done) && Waiting([], runs, taken, done)
    ensures Primed(runs, taken, done)
  {
  }

  lemma AllWaiting(runs: seq<Table>, zeros: seq<nat>)
    requires Counts(runs, zeros, zeros)
    ensures Distinct(Naturals(|runs|)) && Waiting(Naturals(|runs|), runs, zeros, zeros)
  {
    forall i | 0 <= i < |runs| ensures i in Naturals(|runs|) {
      assert Naturals(|runs|)[i] == i;
    }
  }

  /** Pulls the next record of each listed input into the heap. */
  method Refill(iters: seq<SsTableIter>, sources: seq<nat>, start: multiset<HeapEntry>,
                ghost runs: seq<Table>, ghost before: seq<nat>, ghost done: seq<nat>)
    returns (heap: multiset<HeapEntry>, ghost taken: seq<nat>)
    requires AllDistinct(iters) && IteratorsAt(iters, runs, before)
    requires Counts(runs, before, done) && HeapHolds(start, runs, before, done)
    requires Distinct(sources) && forall i | 0 <= i < |sources| :: sources[i] < |iters|
    requires Waiting(sources, runs, before, done)
    modifies iters
    ensures IteratorsAt(iters, runs, taken)
    ensures Counts(runs, taken, done) && Primed(runs, taken, done) && HeapHolds(heap, runs, taken, done)
  {
    hide HeapHolds, Scan, Waiting, Primed;
    assert sources[0..] == sources;
    heap, taken := start, before;
    for n := 0 to |sources|
      invariant IteratorsAt(iters, runs, taken)
      invariant Counts(runs, taken, done) && HeapHolds(heap, runs, taken, done)
      invariant Waiting(sources[n..], runs, taken, done)
    {
      var s := sources[n];
      WaitingNext(sources, n, runs, taken, done);
      var next := iters[s].Next();
      if next.Some? {
        PushPending(heap, s, runs, taken, done);
        heap := heap + multiset{HeapEntry(next.value.key, next.value.value, s)};
        taken := taken[s := taken[s] + 1];
      }
    }
    assert sources[|sources|..] == [];
    NoneWaiting(runs, taken, done);
  }

  method CountRecords(reader: SsTableReader) returns (n: nat)
    ensures n == |RunOf(reader)|
  {
    hide Scan;
    var it := reader.Iter();
    n := 0;
    var next := it.Next();
    while next.Some?
      invariant n + |it.Rest()| + (if next.Some? then 1 else 0) == |RunOf(reader)|
      invariant next.None? ==> it.Rest() == []
      decreases |it.Rest()| + (if next.Some? then 1 else 0)
    {
      n := n + 1;
      next := it.Next();
    }
  }

  lemma TotalOfSplit(runs: seq<Table>, i: nat)
    requires i < |runs|
    ensures TotalRecords(runs[i..]) == |runs[i]| + TotalRecords(runs[i + 1..])
  {
  }

  method ExpectedKeys(readers: seq<SsTableReader>) returns (expected: nat)
    ensures expected == TotalRecords(RunsOf(readers))
  {
    hide RunOf, TotalRecords;
    expected := 0;
    assert RunsOf(readers)[0..] == RunsOf(readers);
    for i := 0 to |readers|
      invariant expected + TotalRecords(RunsOf(readers)[i..]) == TotalRecords(RunsOf(readers))
    {
      var n := CountRecords(readers[i]);
      TotalOfSplit(RunsOf(readers), i);
      expected := expected + n;
    }
    NoRecords(RunsOf(readers)[|readers|..]);
  }

  lemma NoRecords(runs: seq<Table>)
    ensures runs == [] ==> TotalRecords(runs) == 0
  {
  }

  method OpenIterators(readers: seq<SsTableReader>) returns (iters: seq<SsTableIter>)
    ensures fresh(iters) && AllDistinct(iters)
    ensures IteratorsAt(iters, RunsOf(readers), seq(|readers|, _ => 0))
  {
    hide Scan;
    iters := [];
    for i := 0 to |readers|
      invariant |iters| == i && fresh(iters) && AllDistinct(iters)
      invariant forall j | 0 <= j < i :: iters[j].Rest() == RunOf(readers[j])
    {
      var it := readers[i].Iter();
      iters := iters + [it];
    }
    forall j | 0 <= j < |iters| ensures iters[j].Rest() == RunsOf(readers)[j][0..] {
      assert RunOf(readers[j])[0..] == RunOf(readers[j]);
    }
  }

  function Naturals(n: nat): (s: seq<nat>)
    ensures |s| == n && forall i | 0 <= i < n :: s[i] == i
  {
    seq(n, i => i)
  }

  lemma NothingMerged(runs: seq<Table>)
    ensures var zeros := seq(|runs|, _ => 0);
            Counts(runs, zeros, zeros) && HeapHolds(multiset{}, runs, zeros, zeros) && OutputIs([], runs, zeros)
  {
    hide Less;
    assert Suffixes(runs, seq(|runs|, _ => 0)) == runs;
  }

  lemma NotPending(runs: seq<Table>, taken: seq<nat>, done: seq<nat>, i: nat)
    requires Counts(runs, taken, done) && HeapHolds(multiset{}, runs, taken, done)
    requires i < |runs| && done[i] < |runs[i]|
    ensures taken[i] == done[i]
  {
    var e := HeapEntry(runs[i][done[i]].key, runs[i][done[i]].value, i);
    var heap: multiset<HeapEntry> := multiset{};
    assert heap[e] == if Pending(e, runs, taken, done) then 1 else 0;
  }

  lemma EverythingMerged(output: Table, runs: seq<Table>, taken: seq<nat>, done: seq<nat>)
    requires Counts(runs, taken, done) && Primed(runs, taken, done)
    requires HeapHolds(multiset{}, runs, taken, done) && OutputIs(output, runs, done)
    ensures output == Compacted(runs)
  {
    hide Compacted;
    forall i | 0 <= i < |runs| ensures Suffixes(runs, done)[i] == [] {
      if done[i] < |runs[i]| {
        NotPending(runs, taken, done, i);
      }
    }
    NothingToMerge(Suffixes(runs, done));
  }

  lemma {:induction false} NothingToMerge(runs: seq<Table>)
    requires forall i | 0 <= i < |runs| :: runs[i] == []
    ensures MergeAll(runs) == []
  {
    if runs != [] {
      NothingToMerge(runs[1..]);
    }
  }

  ghost function RemainingRecords(runs: seq<Table>, done: seq<nat>): nat
    requires |runs| == |done| && forall i | 0 <= i < |runs| :: done[i] <= |runs[i]|
  {
    if runs == [] then 0 else |runs[0]| - done[0] + RemainingRecords(runs[1..], done[1..])
  }

  lemma {:induction false} RemainingShrinks(runs: seq<Table>, before: seq<nat>, after: seq<nat>)
    requires |runs| == |before| == |after| && forall i | 0 <= i < |runs| :: before[i] <= after[i] <= |runs[i]|
    ensures RemainingRecords(runs, after) <= RemainingRecords(runs, before)
    ensures (exists i :: 0 <= i < |runs| && before[i] < after[i]) ==>
              RemainingRecords(runs, after) < RemainingRecords(runs, before)
  {
    if runs != [] {
      RemainingShrinks(runs[1..], before[1..], after[1..]);
      if i :| 0 <= i < |runs| && before[i] < after[i] {
        if i > 0 {
          assert before[1..][i - 1] < after[1..][i - 1];
        }
      }
    }
  }

  lemma RoundShrinks(runs: seq<Table>, before: seq<nat>, after: seq<nat>, key: Bytes)
    requires Round(runs, before, after, key)
    ensures RemainingRecords(runs, after) < RemainingRecords(runs, before)
  {
    hide Less, RemainingRecords;
    RemainingShrinks(runs, before, after);
  }

  /** The merge between two rounds. */
  ghost predicate Merging(heap: multiset<HeapEntry>, runs: seq<Table>, taken: seq<nat>, done: seq<nat>, output: Table)
  {
    && Counts(runs, taken, done) && Primed(runs, taken, done) && HeapHolds(heap, runs, taken, done)
    && OutputIs(output, runs, done)
  }

  /** One turn of the outer loop: drain a key, refill, and add the key unless it is deleted. */
  method MergeRound(iters: seq<SsTableIter>, writer: SsTableWriter, start: multiset<HeapEntry>,
                    ghost runs: seq<Table>, ghost pulled: seq<nat>, ghost before: seq<nat>)
    returns (heap: multiset<HeapEntry>, ghost taken: seq<nat>, ghost done: seq<nat>)
    requires AllDistinct(iters) && IteratorsAt(iters, runs, pulled)
    requires start != multiset{} && Merging(start, runs, pulled, before, writer.added)
    requires writer.Valid()
    modifies iters, writer, writer.filter.bits
    ensures IteratorsAt(iters, runs, taken) && Merging(heap, runs, taken, done, writer.added)
    ensures writer.Valid()
    ensures |runs| == |before| == |done| && forall i | 0 <= i < |runs| :: before[i] <= |runs[i]| && done[i] <= |runs[i]|
    ensures RemainingRecords(runs, done) < RemainingRecords(runs, before)
  {
    hide Less, OutputIs, HeapHolds, Primed, Round, Best, Scan, Data, Index, RemainingRecords;
    hide Waiting, Merging, Counts, Advanced, Distinct, IteratorsAt, AllDistinct;
    IteratorsMatch(iters, runs, pulled);
    MergingFacts(start, runs, pulled, before, writer.added);
    var key, value, consumed, rest;
    ghost var best;
    key, value, consumed, rest, done, best := DrainKey(start, runs, pulled, before);
    ReadyToRefill(consumed, runs, pulled, before, done);
    heap, taken := Refill(iters, consumed, rest, runs, pulled, done);
    MergingStep(start, heap, runs, pulled, taken, before, done, writer.added, key, best);
    if value != TOMBSTONE {
      writer.Add(key, value);
    }
  }

  lemma IteratorsMatch(iters: seq<SsTableIter>, runs: seq<Table>, taken: seq<nat>)
    requires IteratorsAt(iters, runs, taken)
    ensures |iters| == |runs| == |taken|
  {
  }

  lemma MergingFacts(heap: multiset<HeapEntry>, runs: seq<Table>, taken: seq<nat>, done: seq<nat>, output: Table)
    requires Merging(heap, runs, taken, done, output)
    ensures Counts(runs, taken, done) && Primed(runs, taken, done) && HeapHolds(heap, runs, taken, done)
    ensures |runs| == |taken| == |done| && forall i | 0 <= i < |runs| :: done[i] <= |runs[i]|
  {
    hide OutputIs, HeapHolds, Primed;
  }

  lemma MergingStep(start: multiset<HeapEntry>, heap: multiset<HeapEntry>, runs: seq<Table>, pulled: seq<nat>,
                    taken: seq<nat>, before: seq<nat>, done: seq<nat>, output: Table, key: Bytes, best: nat)
    requires Merging(start, runs, pulled, before, output)
    requires Counts(runs, taken, done) && Primed(runs, taken, done) && HeapHolds(heap, runs, taken, done)
    requires Round(runs, before, done, key) && Best(runs, before, done, best)
    ensures |runs| == |before| == |done| && forall i | 0 <= i < |runs| :: before[i] <= |runs[i]| && done[i] <= |runs[i]|
    ensures RemainingRecords(runs, done) < RemainingRecords(runs, before)
    ensures var value := BestValue(runs, before, done, key, best);
            Merging(heap, runs, taken, done, if value == TOMBSTONE then output else output + [Record(key, value)])
  {
    hide Less, OutputIs, HeapHolds, Primed, Best, RemainingRecords;
    RoundShrinks(runs, before, done, key);
    RoundKeepsOutput(output, runs, before, done, key, best);
  }

  lemma ReadyToRefill(consumed: seq<nat>, runs: seq<Table>, taken: seq<nat>, before: seq<nat>, done: seq<nat>)
    requires Counts(runs, taken, before) && Primed(runs, taken, before) && Counts(runs, taken, done)
    requires Advanced(consumed, before, done)
    ensures Distinct(consumed) && forall i | 0 <= i < |consumed| :: consumed[i] < |runs|
    ensures Waiting(consumed, runs, taken, done)
  {
  }

  /** Opens one iterator per input and puts every first record into the heap. */
  method Prime(readers: seq<SsTableReader>)
    returns (iters: seq<SsTableIter>, heap: multiset<HeapEntry>, ghost taken: seq<nat>, ghost done: seq<nat>)
    ensures fresh(iters) && AllDistinct(iters) && IteratorsAt(iters, RunsOf(readers), taken)
    ensures |readers| == |done| && forall i | 0 <= i < |readers| :: done[i] <= |RunsOf(readers)[i]|
    ensures Merging(heap, RunsOf(readers), taken, done, [])
  {
    hide RunOf, Less, OutputIs, HeapHolds, Primed, Waiting, Merging, Scan;
    iters := OpenIterators(readers);
    ghost var runs := RunsOf(readers);
    done := seq(|runs|, _ => 0);
    NothingMerged(runs);
    AllWaiting(runs, done);
    heap, taken := Refill(iters, Naturals(|iters|), multiset{}, runs, done, done);
    MergingStarts(heap, runs, taken, done);
  }

  /** `merge_sstables`, on any inputs: their order is not checked. */
  method MergeSsTables(disk: Disk, readers: seq<SsTableReader>, path: Name, sizing: Sizing)
    modifies disk
    ensures disk.files == (old(disk.files) - {TmpName(path)})
              [path := FileBytes(Compacted(RunsOf(readers)), sizing(TotalRecords(RunsOf(readers))))]
  {
    hide RunOf, RunsOf, Less, Compacted, Data, Index, FileBytes, Merging, Scan;
    hide RemainingRecords, TotalRecords, AllDistinct, IteratorsAt, TmpName, Keys, Since;
    ghost var runs := RunsOf(readers);
    var expected := ExpectedKeys(readers);
    var writer := new SsTableWriter(disk, path, expected, sizing);
    label created:
    var iters, heap, taken, done := Prime(readers);
    while heap != multiset{}
      invariant fresh(iters) && AllDistinct(iters) && IteratorsAt(iters, runs, taken)
      invariant |runs| == |done| && forall i | 0 <= i < |runs| :: done[i] <= |runs[i]|
      invariant Merging(heap, runs, taken, done, writer.added)
      invariant writer.Valid() && fresh(writer) && fresh(writer.filter) && fresh(writer.filter.bits)
      invariant writer.filter.Params() == sizing(expected) && writer.finalPath == path
      invariant disk.files == old@created(disk.files)
      decreases RemainingRecords(runs, done)
    {
      heap, taken, done := MergeRound(iters, writer, heap, runs, taken, done);
    }
    MergingEnds(runs, taken, done, writer.added);
    writer.Finish(disk);
  }

  lemma MergingStarts(heap: multiset<HeapEntry>, runs: seq<Table>, taken: seq<nat>, done: seq<nat>)
    requires Counts(runs, taken, done) && Primed(runs, taken, done) && HeapHolds(heap, runs, taken, done)
    requires OutputIs([], runs, done)
    ensures Merging(heap, runs, taken, done, [])
  {
    hide OutputIs, HeapHolds, Primed;
  }

  lemma MergingEnds(runs: seq<Table>, taken: seq<nat>, done: seq<nat>, output: Table)
    requires Merging(multiset{}, runs, taken, done, output)
    ensures output == Compacted(runs)
  {
    hide OutputIs, HeapHolds, Primed, Compacted;
    EverythingMerged(output, runs, taken, done);
  }
}
