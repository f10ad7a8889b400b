/** What one compaction does to every lookup, in terms of the tables of the two levels. */
module LevelTables {
  import opened Wrappers
  import opened Bytes
  import opened Tables
  import opened Compaction

  datatype Range = Range(min: Bytes, max: Bytes)

  /** `ranges_overlap`. */
  predicate Overlap(a: Range, b: Range) {
    AtMost(a.min, b.max) && AtMost(b.min, a.max)
  }

  function RangeOf(t: Table): Range
    requires t != []
  {
    Range(t[0].key, t[|t| - 1].key)
  }

  function Hull(a: Range, b: Range): Range {
    Range(MinOf(a.min, b.min), MaxOf(a.max, b.max))
  }

  predicate AllNonEmpty(ts: seq<Table>) {
    forall i | 0 <= i < |ts| :: ts[i] != []
  }

  /** The combined key range of a non-empty level. */
  function HullOf(ts: seq<Table>): Range
    requires ts != [] && AllNonEmpty(ts)
  {
    if |ts| == 1 then RangeOf(ts[0]) else Hull(HullOf(ts[..|ts| - 1]), RangeOf(ts[|ts| - 1]))
  }

  /** The tables that meet `hull`, in order, or the ones that do not. */
  function Select(ts: seq<Table>, hull: Range, meets: bool): (r: seq<Table>)
    requires AllNonEmpty(ts)
    ensures AllNonEmpty(r)
  {
    if ts == [] then [] else
    var rest := Select(ts[1..], hull, meets);
    if Overlap(hull, RangeOf(ts[0])) == meets then [ts[0]] + rest else rest
  }

  /** What `get` returns for a key that is not in the memtable: level 0 newest first, then level 1. */
  function View(l0: seq<Table>, l1: seq<Table>, key: Bytes): Option<Bytes> {
    Live(FirstHit(Reversed(l0) + l1, key))
  }

  /** The merged table: level 0 as handed over, then the overlapping level-1 tables. */
  function Merged(handOver: seq<Table>, l0: seq<Table>, l1: seq<Table>): Table
    requires l0 != [] && AllNonEmpty(l0) && AllNonEmpty(l1)
  {
    Compacted(handOver + Select(l1, HullOf(l0), true))
  }

  /** Level 1 after the compaction. */
  function NewL1(handOver: seq<Table>, l0: seq<Table>, l1: seq<Table>): seq<Table>
    requires l0 != [] && AllNonEmpty(l0) && AllNonEmpty(l1)
  {
    Select(l1, HullOf(l0), false) + [Merged(handOver, l0, l1)]
  }

  predicate Knows(ts: seq<Table>, key: Bytes) {
    exists i | 0 <= i < |ts| :: Lookup(ts[i], key).Some?
  }

  /** All tables that know `key` give it this value. */
  predicate AgreeOn(ts: seq<Table>, key: Bytes, value: Bytes) {
    forall i | 0 <= i < |ts| && Lookup(ts[i], key).Some? :: Lookup(ts[i], key) == Some(value)
  }

  ghost predicate Agreed(ts: seq<Table>, key: Bytes) {
    exists value :: AgreeOn(ts, key, value)
  }

  /** Level-1 tables may share a key only with equal values, except where level 0 shadows it. */
  ghost predicate Consistent(l0: seq<Table>, l1: seq<Table>) {
    forall key, i, j | 0 <= i < |l1| && 0 <= j < |l1| && !Knows(l0, key) &&
                       Lookup(l1[i], key).Some? && Lookup(l1[j], key).Some? ::
      Lookup(l1[i], key) == Lookup(l1[j], key)
  }

  /** The ranges of the tables are pairwise disjoint. */
  ghost predicate Disjoint(ts: seq<Table>) {
    forall i, j | 0 <= i < j < |ts| && ts[i] != [] && ts[j] != [] :: !Overlap(RangeOf(ts[i]), RangeOf(ts[j]))
  }

  ghost predicate TombstoneFree(ts: seq<Table>) {
    forall i, key | 0 <= i < |ts| :: Lookup(ts[i], key) != Some(TOMBSTONE)
  }

  // ---------- first hits of lists that agree ----------

  lemma KnowsFirstHit(ts: seq<Table>, key: Bytes)
    ensures Knows(ts, key) <==> FirstHit(ts, key).Some?
  {
    FirstHitNone(ts, key);
  }

  lemma {:induction false} FirstHitAgreed(ts: seq<Table>, key: Bytes, value: Bytes)
    requires AgreeOn(ts, key, value)
    ensures FirstHit(ts, key) == if Knows(ts, key) then Some(value) else None
  {
    KnowsFirstHit(ts, key);
    if Knows(ts, key) {
      var i := FirstHitSource(ts, key);
    }
  }

  lemma KnowsMember(ts: seq<Table>, key: Bytes)
    ensures Knows(ts, key) <==> exists t :: t in ts && Lookup(t, key).Some?
  {
    if Knows(ts, key) {
      var i :| 0 <= i < |ts| && Lookup(ts[i], key).Some?;
      assert ts[i] in ts;
    }
  }

  lemma KnowsReversed(ts: seq<Table>, key: Bytes)
    ensures Knows(Reversed(ts), key) <==> Knows(ts, key)
  {
    ReversedHas(ts);
    KnowsMember(ts, key);
    KnowsMember(Reversed(ts), key);
  }

  // ---------- ranges ----------

  lemma AtMostTransitive(a: Bytes, b: Bytes, c: Bytes)
    requires AtMost(a, b) && AtMost(b, c)
    ensures AtMost(a, c)
  {
    hide Less;
    LessIsStrictTotal();
  }

  predicate Inside(key: Bytes, r: Range) {
    AtMost(r.min, key) && AtMost(key, r.max)
  }

  lemma KeyInRange(t: Table, key: Bytes)
    requires Sorted(t) && Lookup(t, key).Some?
    ensures t != [] && Inside(key, RangeOf(t))
  {
    hide Less;
    LessIsStrictTotal();
    LookupIffHasKey(t, key);
    var i :| 0 <= i < |t| && t[i].key == key;
    assert i == 0 || Less(t[0].key, t[i].key);
    assert i == |t| - 1 || Less(t[i].key, t[|t| - 1].key);
  }

  lemma HullContains(a: Range, b: Range, key: Bytes)
    requires Inside(key, a) || Inside(key, b)
    ensures Inside(key, Hull(a, b))
  {
    hide Less;
    LessIsStrictTotal();
  }

  lemma {:induction false} KeyInHull(ts: seq<Table>, i: nat, key: Bytes)
    requires AllNonEmpty(ts) && AllSorted(ts) && i < |ts| && Lookup(ts[i], key).Some?
    ensures Inside(key, HullOf(ts))
    decreases |ts|
  {
    hide Lookup, Sorted;
    var n := |ts| - 1;
    KeyInRange(ts[i], key);
    if n > 0 {
      if i < n {
        KeyInHull(ts[..n], i, key);
      }
      HullContains(HullOf(ts[..n]), RangeOf(ts[n]), key);
    }
  }

  lemma InsideBothOverlap(key: Bytes, a: Range, b: Range)
    requires Inside(key, a) && Inside(key, b)
    ensures Overlap(a, b)
  {
    AtMostTransitive(a.min, key, b.max);
    AtMostTransitive(b.min, key, a.max);
  }

  /** Ranges overlap exactly if they share a key. */
  lemma OverlapIffShared(a: Range, b: Range)
    requires AtMost(a.min, a.max) && AtMost(b.min, b.max)
    ensures Overlap(a, b) <==> exists key :: Inside(key, a) && Inside(key, b)
  {
    hide Less;
    LessIsStrictTotal();
    if Overlap(a, b) {
      var key := MaxOf(a.min, b.min);
      assert Inside(key, a) && Inside(key, b);
    }
    if key :| Inside(key, a) && Inside(key, b) {
      InsideBothOverlap(key, a, b);
    }
  }

  /** `r` goes from the smallest to the largest key of the tables. */
  ghost predicate Spans(r: Range, ts: seq<Table>) {
    Knows(ts, r.min) && Knows(ts, r.max) && forall key | Knows(ts, key) :: Inside(key, r)
  }

  lemma SpanIsUnique(ts: seq<Table>, a: Range, b: Range)
    requires Spans(a, ts) && Spans(b, ts)
    ensures a == b
  {
    hide Less, Knows;
    LessIsStrictTotal();
    assert Inside(a.min, b) && Inside(b.min, a) && Inside(a.max, b) && Inside(b.max, a);
  }

  /** The combined range of a level spans its tables. */
  lemma {:induction false} HullSpans(ts: seq<Table>)
    requires ts != [] && AllNonEmpty(ts) && AllSorted(ts)
    ensures Spans(HullOf(ts), ts) && AtMost(HullOf(ts).min, HullOf(ts).max)
  {
    hide Knows, Inside, Sorted, HullOf;
    HullEnds(ts);
    HullOrdered(ts);
    forall key | Knows(ts, key) ensures Inside(key, HullOf(ts)) {
      var i :| 0 <= i < |ts| && Lookup(ts[i], key).Some? by { KnowsSomewhere(ts, key); }
      KeyInHull(ts, i, key);
    }
  }

  lemma KnowsSomewhere(ts: seq<Table>, key: Bytes)
    ensures Knows(ts, key) <==> exists i | 0 <= i < |ts| :: Lookup(ts[i], key).Some?
  {
  }

  /** Both ends of the combined range are keys of the level. */
  lemma {:induction false} HullEnds(ts: seq<Table>)
    requires ts != [] && AllNonEmpty(ts) && AllSorted(ts)
    ensures Knows(ts, HullOf(ts).min) && Knows(ts, HullOf(ts).max)
    decreases |ts|
  {
    hide Lookup, Less, Sorted;
    var n := |ts| - 1;
    assert Sorted(ts[n]);
    LookupAt(ts[n], 0);
    LookupAt(ts[n], |ts[n]| - 1);
    if n > 0 {
      HullEnds(ts[..n]);
    }
  }

  // ---------- selection ----------

  lemma {:induction false} SelectMembers(ts: seq<Table>, hull: Range, meets: bool)
    requires AllNonEmpty(ts)
    ensures forall t :: t in Select(ts, hull, meets) <==> t in ts && t != [] && Overlap(hull, RangeOf(t)) == meets
  {
    hide Overlap;
    if ts != [] {
      SelectMembers(ts[1..], hull, meets);
      assert ts == [ts[0]] + ts[1..];
    }
  }

  /** Tables that stay behind know no key of level 0. */
  lemma UntouchedIgnoreL0(l0: seq<Table>, l1: seq<Table>, key: Bytes)
    requires l0 != [] && AllNonEmpty(l0) && AllNonEmpty(l1) && AllSorted(l0) && AllSorted(l1)
    requires Knows(l0, key)
    ensures !Knows(Select(l1, HullOf(l0), false), key)
  {
    hide Lookup, Overlap, Inside, Sorted, HullOf;
    var un := Select(l1, HullOf(l0), false);
    var i :| 0 <= i < |l0| && Lookup(l0[i], key).Some?;
    KeyInHull(l0, i, key);
    SelectMembers(l1, HullOf(l0), false);
    forall j | 0 <= j < |un| ensures Lookup(un[j], key).None? {
      assert un[j] in un && un[j] in l1;
      if Lookup(un[j], key).Some? {
        KeyInRange(un[j], key);
        InsideBothOverlap(key, HullOf(l0), RangeOf(un[j]));
      }
    }
  }

  /** What level 1 holds for a key level 0 does not know: one value, wherever it is found. */
  lemma L1Value(l0: seq<Table>, l1: seq<Table>, key: Bytes) returns (value: Bytes)
    requires Consistent(l0, l1) && !Knows(l0, key)
    ensures AgreeOn(l1, key, value)
  {
    value := [];
    if Knows(l1, key) {
      var i :| 0 <= i < |l1| && Lookup(l1[i], key).Some?;
      value := Lookup(l1[i], key).value;
    }
  }

  lemma AgreeSubset(a: seq<Table>, b: seq<Table>, key: Bytes, value: Bytes)
    requires AgreeOn(b, key, value) && forall t :: t in a ==> t in b
    ensures AgreeOn(a, key, value)
  {
    forall i | 0 <= i < |a| && Lookup(a[i], key).Some? ensures Lookup(a[i], key) == Some(value) {
      assert a[i] in b;
      var j :| 0 <= j < |b| && b[j] == a[i];
    }
  }

  lemma SelectSorted(ts: seq<Table>, hull: Range, meets: bool)
    requires AllNonEmpty(ts) && AllSorted(ts)
    ensures AllSorted(Select(ts, hull, meets))
  {
    hide Sorted, Overlap;
    var s := Select(ts, hull, meets);
    SelectMembers(ts, hull, meets);
    forall i | 0 <= i < |s| ensures Sorted(s[i]) {
      assert s[i] in ts;
    }
  }

  // ---------- the effect of a compaction on a lookup ----------

  /** The lookup after a compaction that hands level 0 over in the order `handOver`. */
  lemma MergedLookup(handOver: seq<Table>, l0: seq<Table>, l1: seq<Table>, key: Bytes)
    requires l0 != [] && AllNonEmpty(l0) && AllNonEmpty(l1) && AllSorted(l0) && AllSorted(l1)
    requires forall t :: t in handOver <==> t in l0
    ensures Sorted(Merged(handOver, l0, l1))
    ensures Lookup(Merged(handOver, l0, l1), key) ==
            Live(if Knows(l0, key) then FirstHit(handOver, key) else FirstHit(Select(l1, HullOf(l0), true), key))
  {
    hide Sorted, HullOf, Compacted, Lookup;
    var ov := Select(l1, HullOf(l0), true);
    SelectSorted(l1, HullOf(l0), true);
    assert AllSorted(handOver + ov) by {
      forall i | 0 <= i < |handOver + ov| ensures Sorted((handOver + ov)[i]) {
        assert i < |handOver| ==> handOver[i] in l0;
      }
    }
    CompactedLookup(handOver + ov, key);
    FirstHitConcat(handOver, ov, key);
    KnowsFirstHit(handOver, key);
    KnowsMember(handOver, key);
    KnowsMember(l0, key);
  }

  /** After a compaction a key of level 0 reads as the hand-over order says, any other key as before. */
  lemma CompactionView(handOver: seq<Table>, l0: seq<Table>, l1: seq<Table>, key: Bytes)
    requires l0 != [] && AllNonEmpty(l0) && AllNonEmpty(l1) && AllSorted(l0) && AllSorted(l1)
    requires Consistent(l0, l1)
    requires forall t :: t in handOver <==> t in l0
    ensures View([], NewL1(handOver, l0, l1), key) ==
            if Knows(l0, key) then Live(FirstHit(handOver, key)) else View(l0, l1, key)
  {
    hide Sorted, HullOf, Merged, Lookup, Knows, AgreeOn, Consistent;
    var un, ov, m := Select(l1, HullOf(l0), false), Select(l1, HullOf(l0), true), Merged(handOver, l0, l1);
    MergedLookup(handOver, l0, l1, key);
    FirstHitConcat(un, [m], key);
    FirstHitConcat(Reversed(l0), l1, key);
    KnowsReversed(l0, key);
    KnowsFirstHit(Reversed(l0), key);
    KnowsFirstHit(un, key);
    FirstHitOne(m, key);
    assert Reversed<Table>([]) + NewL1(handOver, l0, l1) == un + [m];
    if Knows(l0, key) {
      UntouchedIgnoreL0(l0, l1, key);
    } else {
      var value := L1Value(l0, l1, key);
      SplitValue(l1, HullOf(l0), key, value);
    }
  }

  lemma FirstHitOne(t: Table, key: Bytes)
    ensures FirstHit([t], key) == Lookup(t, key)
  {
    assert [t][1..] == [];
  }

  /** Splitting level 1 by overlap loses no agreed value. */
  lemma SplitValue(l1: seq<Table>, hull: Range, key: Bytes, value: Bytes)
    requires AllNonEmpty(l1) && AgreeOn(l1, key, value)
    ensures var un, ov := Select(l1, hull, false), Select(l1, hull, true);
            && FirstHit(l1, key) == (if Knows(l1, key) then Some(value) else None)
            && FirstHit(un, key) == (if Knows(un, key) then Some(value) else None)
            && FirstHit(ov, key) == (if Knows(ov, key) then Some(value) else None)
            && (Knows(l1, key) <==> Knows(un, key) || Knows(ov, key))
  {
    hide Overlap, Knows, AgreeOn;
    var un, ov := Select(l1, hull, false), Select(l1, hull, true);
    SelectMembers(l1, hull, false);
    SelectMembers(l1, hull, true);
    AgreeSubset(un, l1, key, value);
    AgreeSubset(ov, l1, key, value);
    FirstHitAgreed(l1, key, value);
    FirstHitAgreed(un, key, value);
    FirstHitAgreed(ov, key, value);
    KnowsMember(l1, key);
    KnowsMember(un, key);
    KnowsMember(ov, key);
    assert forall t | t in l1 :: t != [];
  }

  /** The intended hand-over, newest first, changes no lookup; dropping tombstones revives nothing. */
  lemma NewestFirstPreserves(l0: seq<Table>, l1: seq<Table>, key: Bytes)
    requires l0 != [] && AllNonEmpty(l0) && AllNonEmpty(l1) && AllSorted(l0) && AllSorted(l1)
    requires Consistent(l0, l1)
    ensures View([], NewL1(Reversed(l0), l0, l1), key) == View(l0, l1, key)
  {
    hide Sorted, HullOf, NewL1, Knows, Consistent;
    ReversedHas(l0);
    CompactionView(Reversed(l0), l0, l1, key);
    FirstHitConcat(Reversed(l0), l1, key);
    KnowsReversed(l0, key);
    KnowsFirstHit(Reversed(l0), key);
  }

  /** The oldest and the newest level-0 record of every key are the same. */
  ghost predicate EndsAgree(l0: seq<Table>) {
    forall key :: FirstHit(l0, key) == FirstHit(Reversed(l0), key)
  }

  lemma LiveInjective(a: Bytes, b: Bytes)
    ensures Live(Some(a)) == Live(Some(b)) <==> a == b
  {
  }

  /** As written, level 0 is handed over oldest first: one lookup is preserved exactly when the
      oldest and the newest level-0 record of the key are the same. */
  lemma OldestFirstAt(l0: seq<Table>, l1: seq<Table>, key: Bytes)
    requires l0 != [] && AllNonEmpty(l0) && AllNonEmpty(l1) && AllSorted(l0) && AllSorted(l1)
    requires Consistent(l0, l1)
    ensures View([], NewL1(l0, l0, l1), key) == View(l0, l1, key) <==>
            FirstHit(l0, key) == FirstHit(Reversed(l0), key)
  {
    hide Sorted, HullOf, NewL1, Knows, Consistent;
    CompactionView(l0, l0, l1, key);
    ViewCases(l0, l1, key);
    KnowsReversed(l0, key);
    KnowsFirstHit(Reversed(l0), key);
    KnowsFirstHit(l0, key);
    if Knows(l0, key) {
      LiveInjective(FirstHit(l0, key).value, FirstHit(Reversed(l0), key).value);
    }
  }

  /** A compaction as written preserves every lookup if and only if no key has different oldest
      and newest level-0 records. */
  lemma OldestFirstPreservesIff(l0: seq<Table>, l1: seq<Table>)
    requires l0 != [] && AllNonEmpty(l0) && AllNonEmpty(l1) && AllSorted(l0) && AllSorted(l1)
    requires Consistent(l0, l1)
    ensures (forall key :: View([], NewL1(l0, l0, l1), key) == View(l0, l1, key)) <==> EndsAgree(l0)
  {
    hide Sorted, HullOf, NewL1, Consistent, View, FirstHit;
    forall key
      ensures View([], NewL1(l0, l0, l1), key) == View(l0, l1, key) <==>
              FirstHit(l0, key) == FirstHit(Reversed(l0), key)
    {
      OldestFirstAt(l0, l1, key);
    }
  }

  /** A concrete loss: a key set to 1, flushed, set to 2, flushed; compaction brings back 1. */
  lemma OldestFirstLosesAnUpdate()
    ensures var l0: seq<Table> := [[Record([7], [1])], [Record([7], [2])]];
            && AllNonEmpty(l0) && AllSorted(l0) && Consistent(l0, [])
            && View(l0, [], [7]) == Some([2])
            && View([], NewL1(l0, l0, []), [7]) == Some([1])
  {
    hide HullOf, NewL1;
    var a, b: Table := [Record([7], [1])], [Record([7], [2])];
    var l0: seq<Table> := [a, b];
    LookupAt(a, 0);
    LookupAt(b, 0);
    FirstHitAt(l0, [7], 0);
    assert Reversed(l0) == [b, a] by {
      ReversedAt(l0, 0);
      ReversedAt(l0, 1);
    }
    assert [b, a] + [] == [b, a];
    FirstHitAt([b, a], [7], 0);
    KnowsFirstHit(l0, [7]);
    CompactionView(l0, l0, [], [7]);
  }

  // ---------- level 1 after a compaction ----------

  lemma MergedKeySource(l0: seq<Table>, l1: seq<Table>, handOver: seq<Table>, key: Bytes)
    requires l0 != [] && AllNonEmpty(l0) && AllNonEmpty(l1) && AllSorted(l0) && AllSorted(l1)
    requires forall t :: t in handOver <==> t in l0
    requires Lookup(Merged(handOver, l0, l1), key).Some?
    ensures Inside(key, HullOf(l0)) ||
            exists t :: t in l1 && t != [] && Overlap(HullOf(l0), RangeOf(t)) && Inside(key, RangeOf(t))
  {
    hide Sorted, HullOf, Merged, Lookup, Overlap, Inside;
    MergedLookup(handOver, l0, l1, key);
    if Knows(l0, key) {
      var i :| 0 <= i < |l0| && Lookup(l0[i], key).Some?;
      KeyInHull(l0, i, key);
    } else {
      var ov := Select(l1, HullOf(l0), true);
      SelectMembers(l1, HullOf(l0), true);
      KnowsFirstHit(ov, key);
      var i :| 0 <= i < |ov| && Lookup(ov[i], key).Some?;
      assert ov[i] in ov;
      SelectSorted(l1, HullOf(l0), true);
      KeyInRange(ov[i], key);
    }
  }

  /** A key inside the hull, or inside a level-1 range that meets the hull, lies on the same side of
      a range that meets neither as the hull does. */
  lemma OutsideStaysOutside(hull: Range, other: Range, key: Bytes, via: Range)
    requires AtMost(hull.min, hull.max) && AtMost(other.min, other.max)
    requires !Overlap(hull, other)
    requires Inside(key, via) && (via == hull || (Overlap(hull, via) && !Overlap(via, other)))
    ensures Less(other.max, hull.min) ==> Less(other.max, key)
    ensures Less(hull.max, other.min) ==> Less(key, other.min)
  {
    hide Less;
    LessIsStrictTotal();
  }

  /** The merged range meets no untouched range. */
  lemma MergedMissesUntouched(l0: seq<Table>, l1: seq<Table>, handOver: seq<Table>, u: Table)
    requires l0 != [] && AllNonEmpty(l0) && AllNonEmpty(l1) && AllSorted(l0) && AllSorted(l1) && Disjoint(l1)
    requires forall t :: t in handOver <==> t in l0
    requires u in l1 && !Overlap(HullOf(l0), RangeOf(u))
    ensures Merged(handOver, l0, l1) != [] ==> !Overlap(RangeOf(Merged(handOver, l0, l1)), RangeOf(u))
  {
    hide Sorted, HullOf, Merged, Lookup, Less, Select, Compacted;
    var m := Merged(handOver, l0, l1);
    if m != [] {
      var hull, other := HullOf(l0), RangeOf(u);
      MergedLookup(handOver, l0, l1, m[0].key);
      RangeOrdered(u, l1);
      HullOrdered(l0);
      forall i | 0 <= i < |m|
        ensures Less(other.max, hull.min) ==> Less(other.max, m[i].key)
        ensures Less(hull.max, other.min) ==> Less(m[i].key, other.min)
      {
        LookupAt(m, i);
        MergedKeySource(l0, l1, handOver, m[i].key);
        if Inside(m[i].key, hull) {
          OutsideStaysOutside(hull, other, m[i].key, hull);
        } else {
          var t :| t in l1 && t != [] && Overlap(hull, RangeOf(t)) && Inside(m[i].key, RangeOf(t));
          DisjointMembers(l1, t, u);
          OutsideStaysOutside(hull, other, m[i].key, RangeOf(t));
        }
      }
      SidesAreTotal(hull, other);
    }
  }

  lemma SidesAreTotal(a: Range, b: Range)
    requires !Overlap(a, b)
    ensures Less(b.max, a.min) || Less(a.max, b.min)
  {
  }

  lemma RangeOrdered(t: Table, ts: seq<Table>)
    requires t in ts && AllSorted(ts) && t != []
    ensures AtMost(RangeOf(t).min, RangeOf(t).max)
  {
    hide Less;
    LessIsStrictTotal();
    assert Sorted(t);
  }

  lemma {:induction false} HullOrdered(ts: seq<Table>)
    requires ts != [] && AllNonEmpty(ts) && AllSorted(ts)
    ensures AtMost(HullOf(ts).min, HullOf(ts).max)
    decreases |ts|
  {
    hide Less, Sorted;
    LessIsStrictTotal();
    var n := |ts| - 1;
    RangeOrdered(ts[n], ts);
    if n > 0 {
      HullOrdered(ts[..n]);
    }
  }

  lemma DisjointMembers(ts: seq<Table>, a: Table, b: Table)
    requires Disjoint(ts) && a in ts && b in ts && a != [] && b != [] && a != b
    ensures !Overlap(RangeOf(a), RangeOf(b))
  {
    hide Less;
    var i :| 0 <= i < |ts| && ts[i] == a;
    var j :| 0 <= j < |ts| && ts[j] == b;
  }

  lemma {:induction false} SelectKeepsDisjoint(ts: seq<Table>, hull: Range, meets: bool)
    requires AllNonEmpty(ts) && Disjoint(ts)
    ensures Disjoint(Select(ts, hull, meets))
  {
    hide Overlap;
    if ts != [] {
      assert Disjoint(ts[1..]);
      SelectKeepsDisjoint(ts[1..], hull, meets);
      SelectMembers(ts[1..], hull, meets);
      var rest := Select(ts[1..], hull, meets);
      forall j | 0 <= j < |rest| ensures !Overlap(RangeOf(ts[0]), RangeOf(rest[j])) {
        assert rest[j] in rest && rest[j] in ts[1..];
        var k :| 0 <= k < |ts[1..]| && ts[1..][k] == rest[j];
        assert ts[k + 1] == rest[j];
      }
    }
  }

  /** Every successful compaction, whatever the hand-over order, keeps level 1 disjoint and free of
      tombstones. */
  lemma CompactionKeepsL1(handOver: seq<Table>, l0: seq<Table>, l1: seq<Table>)
    requires l0 != [] && AllNonEmpty(l0) && AllNonEmpty(l1) && AllSorted(l0) && AllSorted(l1)
    requires Disjoint(l1) && TombstoneFree(l1)
    requires forall t :: t in handOver <==> t in l0
    ensures Disjoint(NewL1(handOver, l0, l1)) && TombstoneFree(NewL1(handOver, l0, l1))
    ensures AllSorted(NewL1(handOver, l0, l1))
  {
    hide Sorted, HullOf, Merged, Lookup, Overlap, Select, TombstoneFree;
    var un, m := Select(l1, HullOf(l0), false), Merged(handOver, l0, l1);
    SelectKeepsDisjoint(l1, HullOf(l0), false);
    SelectMembers(l1, HullOf(l0), false);
    SelectSorted(l1, HullOf(l0), false);
    MergedLookup(handOver, l0, l1, []);
    forall i | 0 <= i < |un| && m != [] ensures !Overlap(RangeOf(un[i]), RangeOf(m)) {
      assert un[i] in un;
      MergedMissesUntouched(l0, l1, handOver, un[i]);
      OverlapSymmetric(RangeOf(un[i]), RangeOf(m));
    }
    NewL1TombstoneFree(handOver, l0, l1);
  }

  lemma OverlapSymmetric(a: Range, b: Range)
    ensures Overlap(a, b) <==> Overlap(b, a)
  {
  }

  lemma NewL1TombstoneFree(handOver: seq<Table>, l0: seq<Table>, l1: seq<Table>)
    requires l0 != [] && AllNonEmpty(l0) && AllNonEmpty(l1) && AllSorted(l0) && AllSorted(l1)
    requires TombstoneFree(l1) && forall t :: t in handOver <==> t in l0
    ensures TombstoneFree(NewL1(handOver, l0, l1))
  {
    hide Sorted, HullOf, Merged, Lookup, Overlap, Select;
    var un, m := Select(l1, HullOf(l0), false), Merged(handOver, l0, l1);
    SelectMembers(l1, HullOf(l0), false);
    forall i, key | 0 <= i < |un + [m]| ensures Lookup((un + [m])[i], key) != Some(TOMBSTONE) {
      if i < |un| {
        assert un[i] in un;
        var j :| 0 <= j < |l1| && l1[j] == un[i];
      } else {
        MergedLookup(handOver, l0, l1, key);
      }
    }
  }

  /** While the merged table and its inputs are both in level 1, as a restart between the merge and its
      deletions finds them, the level is disjoint exactly when the merged table meets none of the tables it was
      merged from: when it is empty, or the keys they overlapped in have all been deleted. */
  lemma DisjointWithMergedIff(handOver: seq<Table>, l0: seq<Table>, l1: seq<Table>)
    requires l0 != [] && AllNonEmpty(l0) && AllNonEmpty(l1) && AllSorted(l0) && AllSorted(l1) && Disjoint(l1)
    requires forall t :: t in handOver <==> t in l0
    ensures var m := Merged(handOver, l0, l1);
            Disjoint(l1 + [m]) <==>
            m == [] || forall t | t in Select(l1, HullOf(l0), true) :: !Overlap(RangeOf(t), RangeOf(m))
  {
    hide Sorted, HullOf, Merged, Overlap, Select;
    var m := Merged(handOver, l0, l1);
    SelectMembers(l1, HullOf(l0), true);
    if m != [] {
      forall t | t in l1 && !Overlap(HullOf(l0), RangeOf(t)) ensures !Overlap(RangeOf(t), RangeOf(m)) {
        MergedMissesUntouched(l0, l1, handOver, t);
        OverlapSymmetric(RangeOf(t), RangeOf(m));
      }
      DisjointPush(l1, m);
    } else {
      assert forall i | 0 <= i < |l1| :: (l1 + [m])[i] == l1[i];
    }
  }

  /** One more table keeps a disjoint level disjoint exactly when it meets none of the others. */
  lemma DisjointPush(ts: seq<Table>, m: Table)
    requires Disjoint(ts) && AllNonEmpty(ts) && m != []
    ensures Disjoint(ts + [m]) <==> forall t | t in ts :: !Overlap(RangeOf(t), RangeOf(m))
  {
    hide Overlap;
    var all := ts + [m];
    assert forall i | 0 <= i < |ts| :: all[i] == ts[i];
    assert all[|ts|] == m;
    if Disjoint(all) {
      forall t | t in ts ensures !Overlap(RangeOf(t), RangeOf(m)) {
        var i :| 0 <= i < |ts| && ts[i] == t;
        assert !Overlap(RangeOf(all[i]), RangeOf(all[|ts|]));
      }
    }
  }

  /** With disjoint ranges, at most one level-1 table knows a key. */
  lemma AtMostOneKnows(l1: seq<Table>, i: nat, j: nat, key: Bytes)
    requires AllSorted(l1) && Disjoint(l1) && i < |l1| && j < |l1|
    requires Lookup(l1[i], key).Some? && Lookup(l1[j], key).Some?
    ensures i == j
  {
    hide Less, Lookup, Sorted, Inside, Overlap;
    KeyInRange(l1[i], key);
    KeyInRange(l1[j], key);
    InsideBothOverlap(key, RangeOf(l1[i]), RangeOf(l1[j]));
    InsideBothOverlap(key, RangeOf(l1[j]), RangeOf(l1[i]));
  }

  lemma DisjointIsConsistent(l0: seq<Table>, l1: seq<Table>)
    requires AllSorted(l1) && Disjoint(l1)
    ensures Consistent(l0, l1)
  {
    hide Lookup, Sorted, Disjoint, Knows;
    forall key, i, j | 0 <= i < |l1| && 0 <= j < |l1| && !Knows(l0, key) &&
                       Lookup(l1[i], key).Some? && Lookup(l1[j], key).Some?
      ensures Lookup(l1[i], key) == Lookup(l1[j], key)
    {
      AtMostOneKnows(l1, i, j, key);
    }
  }

  // ---------- crashes inside a compaction ----------

  /** The tables a restart finds in level 1 after the output was renamed into place and before any
      input was deleted: the old ones and the merged one, in any order. */
  ghost predicate WithMerged(found: seq<Table>, l1: seq<Table>, m: Table) {
    forall t :: t in found <==> t in l1 || t == m
  }

  /** A crash in that window changes no recovered lookup, and leaves level 1 consistent: level 0
      shadows every key on which the old and the merged tables differ. */
  lemma CrashAfterRename(handOver: seq<Table>, l0: seq<Table>, l1: seq<Table>, found: seq<Table>, key: Bytes)
    requires l0 != [] && AllNonEmpty(l0) && AllNonEmpty(l1) && AllSorted(l0) && AllSorted(l1)
    requires Consistent(l0, l1) && TombstoneFree(l1)
    requires forall t :: t in handOver <==> t in l0
    requires WithMerged(found, l1, Merged(handOver, l0, l1))
    ensures View(l0, found, key) == View(l0, l1, key)
    ensures !Knows(l0, key) ==> Agreed(found, key)
  {
    hide Sorted, HullOf, Merged, Lookup, Knows, AgreeOn, Consistent;
    FirstHitConcat(Reversed(l0), l1, key);
    FirstHitConcat(Reversed(l0), found, key);
    KnowsReversed(l0, key);
    KnowsFirstHit(Reversed(l0), key);
    if !Knows(l0, key) {
      var value := L1Value(l0, l1, key);
      FoundAgrees(handOver, l0, l1, found, key, value);
      FirstHitAgreed(l1, key, value);
      FirstHitAgreed(found, key, value);
    }
  }

  lemma FoundAgrees(handOver: seq<Table>, l0: seq<Table>, l1: seq<Table>, found: seq<Table>, key: Bytes, value: Bytes)
    requires l0 != [] && AllNonEmpty(l0) && AllNonEmpty(l1) && AllSorted(l0) && AllSorted(l1)
    requires AgreeOn(l1, key, value) && TombstoneFree(l1) && !Knows(l0, key)
    requires forall t :: t in handOver <==> t in l0
    requires WithMerged(found, l1, Merged(handOver, l0, l1))
    ensures AgreeOn(found, key, value) && (Knows(found, key) <==> Knows(l1, key))
  {
    hide Sorted, HullOf, Merged, Lookup, TombstoneFree;
    var m := Merged(handOver, l0, l1);
    MergedLookup(handOver, l0, l1, key);
    SplitValue(l1, HullOf(l0), key, value);
    KnowsMember(l1, key);
    KnowsMember(found, key);
    forall i | 0 <= i < |found| && Lookup(found[i], key).Some? ensures Lookup(found[i], key) == Some(value) {
      assert found[i] in found;
      if found[i] in l1 {
        var j :| 0 <= j < |l1| && l1[j] == found[i];
      }
    }
  }

  /** Inputs are deleted oldest level-0 table first. After `j` of those deletions a lookup is unchanged
      exactly when a remaining level-0 table knows the key, or the record found instead is the newest one:
      an old level-1 record comes before the merged table, whose name is newer. */
  lemma {:induction false} CrashDuringDeletes(l0: seq<Table>, l1: seq<Table>, j: nat, key: Bytes)
    requires l0 != [] && AllNonEmpty(l0) && AllNonEmpty(l1) && AllSorted(l0) && AllSorted(l1)
    requires Consistent(l0, l1) && TombstoneFree(l1) && j <= |l0|
    ensures View(l0[j..], l1 + [Merged(l0, l0, l1)], key) == View(l0, l1, key) <==>
            (Knows(l0, key) && !Knows(l0[j..], key) ==>
               FirstHit(if Knows(l1, key) then l1 else l0, key) == FirstHit(Reversed(l0), key))
  {
    hide Sorted, HullOf, Merged, Lookup, Knows, AgreeOn, Consistent, View, WithMerged, TombstoneFree;
    var m, left := Merged(l0, l0, l1), l0[j..];
    ViewCases(l0, l1, key);
    ViewCases(left, l1 + [m], key);
    KnowsSuffix(l0, j, key);
    if Knows(left, key) {
    } else if !Knows(l0, key) {
      MembersOfPush(l1, m);
      CrashAfterRename(l0, l0, l1, l1 + [m], key);
      ViewCases(l0, l1 + [m], key);
    } else {
      InsteadOfNewest(l0, l1, l1, key);
    }
  }

  /** What is read for a key of level 0 once level 0 is gone, against its newest record. */
  lemma InsteadOfNewest(l0: seq<Table>, l1: seq<Table>, rest: seq<Table>, key: Bytes)
    requires l0 != [] && AllNonEmpty(l0) && AllNonEmpty(l1) && AllSorted(l0) && AllSorted(l1) && Knows(l0, key)
    ensures Live(FirstHit(rest + [Merged(l0, l0, l1)], key)) == Live(FirstHit(Reversed(l0), key)) <==>
            FirstHit(if Knows(rest, key) then rest else l0, key) == FirstHit(Reversed(l0), key)
  {
    hide Sorted, HullOf, Merged, Lookup, Knows;
    var m := Merged(l0, l0, l1);
    KnowsFirstHit(l0, key);
    KnowsReversed(l0, key);
    KnowsFirstHit(Reversed(l0), key);
    KnowsFirstHit(rest, key);
    FirstHitConcat(rest, [m], key);
    FirstHitOne(m, key);
    MergedLookup(l0, l0, l1, key);
    LiveInjective(FirstHit(if Knows(rest, key) then rest else l0, key).value, FirstHit(Reversed(l0), key).value);
  }

  /** A concrete loss: level 1 holds 1 for a key, the first level-0 file 2. A crash after that file was
      deleted, and before the old level-1 file was, brings 1 back. */
  lemma CrashDuringDeletesLosesAnUpdate()
    ensures var l0: seq<Table>, l1: seq<Table> := [[Record([7], [2])], [Record([9], [3])]], [[Record([7], [1])]];
            && AllNonEmpty(l0) && AllNonEmpty(l1) && AllSorted(l0) && AllSorted(l1)
            && Consistent(l0, l1) && TombstoneFree(l1) && EndsAgree(l0)
            && View(l0, l1, [7]) == Some([2])
            && View(l0[1..], l1 + [Merged(l0, l0, l1)], [7]) == Some([1])
  {
    hide HullOf, Merged, View, Consistent, Overlap;
    var a, b, stale: Table := [Record([7], [2])], [Record([9], [3])], [Record([7], [1])];
    var l0, l1: seq<Table> := [a, b], [stale];
    OneRecord([7], [2]);
    OneRecord([9], [3]);
    OneRecord([7], [1]);
    SingletonIsConsistent(l0, stale);
    DistinctKeysAgree(a, b);
    var m := Merged(l0, l0, l1);
    FirstHitAt(l0, [7], 0);
    FirstHitAt(l1, [7], 0);
    KnowsFirstHit(l0, [7]);
    KnowsFirstHit(l1, [7]);
    assert l0[1..] == [b] && !Knows([b], [7]);
    ViewCases(l0, l1, [7]);
    ViewCases([b], l1 + [m], [7]);
    FirstHitConcat(l1, [m], [7]);
  }

  lemma OneRecord(key: Bytes, value: Bytes)
    ensures Sorted([Record(key, value)])
    ensures forall other :: Lookup([Record(key, value)], other) == if other == key then Some(value) else None
  {
    assert [Record(key, value)][1..] == [];
  }

  lemma SingletonIsConsistent(l0: seq<Table>, t: Table)
    ensures Consistent(l0, [t])
  {
    hide Lookup, Knows;
  }

  lemma DistinctKeysAgree(a: Table, b: Table)
    requires forall key :: Lookup(a, key).None? || Lookup(b, key).None?
    ensures EndsAgree([a, b])
  {
    hide Lookup;
    assert Reversed([a, b]) == [b, a] by {
      ReversedAt([a, b], 0);
      ReversedAt([a, b], 1);
    }
    forall key ensures FirstHit([a, b], key) == FirstHit([b, a], key) {
      assert [a, b][1..] == [b] && [b, a][1..] == [a] && [a][1..] == [] && [b][1..] == [];
    }
  }

  /** What is left of level 1 while its merged tables are deleted: the untouched tables, and some or all
      of the merged ones. */
  ghost predicate LeftOf(rest: seq<Table>, l0: seq<Table>, l1: seq<Table>)
    requires l0 != [] && AllNonEmpty(l0)
  {
    && (forall t | t in rest :: t in l1)
    && (forall t | t in l1 && t != [] && !Overlap(HullOf(l0), RangeOf(t)) :: t in rest)
  }

  /** Then come the merged level-1 tables. With level 0 gone and `rest` of level 1 left, a lookup is
      unchanged exactly when the record found instead of the newest level-0 one is the same. */
  lemma {:induction false} CrashDuringL1Deletes(l0: seq<Table>, l1: seq<Table>, rest: seq<Table>, key: Bytes)
    requires l0 != [] && AllNonEmpty(l0) && AllNonEmpty(l1) && AllSorted(l0) && AllSorted(l1)
    requires Consistent(l0, l1) && TombstoneFree(l1) && LeftOf(rest, l0, l1)
    ensures View([], rest + [Merged(l0, l0, l1)], key) == View(l0, l1, key) <==>
            (Knows(l0, key) ==> FirstHit(if Knows(rest, key) then rest else l0, key) == FirstHit(Reversed(l0), key))
  {
    hide Sorted, HullOf, Merged, Lookup, Knows, AgreeOn, Consistent, View, LeftOf, TombstoneFree, AllNonEmpty;
    var m := Merged(l0, l0, l1);
    ViewCases(l0, l1, key);
    ViewCases([], rest + [m], key);
    NothingKnown(key);
    if Knows(l0, key) {
      InsteadOfNewest(l0, l1, rest, key);
    } else {
      var value := L1Value(l0, l1, key);
      RestAgrees(l0, l1, rest, key, value);
      FirstHitAgreed(l1, key, value);
      FirstHitAgreed(rest, key, value);
      FirstHitConcat(rest, [m], key);
      FirstHitOne(m, key);
      MergedLookup(l0, l0, l1, key);
    }
  }

  // ---------- files left behind by a failed compaction ----------

  /** The lists a compaction works on may lack older files that are still in the directory: `s0` older than its
      level 0, and `s1` older than its level 1. What a restart reads for a key after the compaction is unchanged
      exactly when the record found first, among the files left behind or else the oldest of level 0, is the
      newest one. */
  lemma {:induction false} CompactionBesideStrays(s0: seq<Table>, l0: seq<Table>, s1: seq<Table>, l1: seq<Table>,
                                                  key: Bytes)
    requires l0 != [] && AllNonEmpty(l0) && AllNonEmpty(l1) && AllSorted(l0) && AllSorted(l1) && Consistent(l0, l1)
    ensures var strays := Reversed(s0) + s1;
            View(s0, s1 + NewL1(l0, l0, l1), key) == View(s0 + l0, s1 + l1, key) <==>
            (Knows(l0, key) ==>
               FirstHit(if Knows(strays, key) then strays else l0, key) == FirstHit(Reversed(l0), key))
  {
    hide Sorted, HullOf, NewL1, Lookup, Knows, Consistent;
    var r0, strays := Reversed(l0), Reversed(s0) + s1;
    ReversedConcat(s0, l0);
    assert Reversed(s0) + (s1 + NewL1(l0, l0, l1)) == strays + NewL1(l0, l0, l1);
    assert Reversed(s0 + l0) + (s1 + l1) == r0 + (strays + l1);
    FirstHitConcat(strays, NewL1(l0, l0, l1), key);
    FirstHitConcat(r0, strays + l1, key);
    FirstHitConcat(strays, l1, key);
    FirstHitConcat(r0, l1, key);
    CompactionView(l0, l0, l1, key);
    assert Reversed<Table>([]) + NewL1(l0, l0, l1) == NewL1(l0, l0, l1);
    KnowsFirstHit(strays, key);
    KnowsFirstHit(l0, key);
    KnowsReversed(l0, key);
    KnowsFirstHit(r0, key);
    if Knows(l0, key) {
      LiveInjective(FirstHit(if Knows(strays, key) then strays else l0, key).value, FirstHit(r0, key).value);
    }
  }

  lemma NothingKnown(key: Bytes)
    ensures !Knows([], key)
  {
  }

  /** A key level 0 does not know keeps its one level-1 value, in what is left or in the merged table. */
  lemma {:induction false} RestAgrees(l0: seq<Table>, l1: seq<Table>, rest: seq<Table>, key: Bytes, value: Bytes)
    requires l0 != [] && AllNonEmpty(l0) && AllNonEmpty(l1)
    requires AgreeOn(l1, key, value) && LeftOf(rest, l0, l1)
    ensures AgreeOn(rest, key, value) && (Knows(rest, key) ==> Knows(l1, key))
    ensures FirstHit(Select(l1, HullOf(l0), true), key).Some? ==>
              FirstHit(Select(l1, HullOf(l0), true), key) == Some(value) && Knows(l1, key)
    ensures Knows(l1, key) ==> Knows(rest, key) || FirstHit(Select(l1, HullOf(l0), true), key).Some?
  {
    hide HullOf, Lookup, Overlap, Knows, AgreeOn, AllNonEmpty;
    SplitValue(l1, HullOf(l0), key, value);
    AgreeSubset(rest, l1, key, value);
    KnowsMember(l1, key);
    KnowsMember(rest, key);
    KnowsMember(Select(l1, HullOf(l0), false), key);
    SelectMembers(l1, HullOf(l0), false);
  }

  lemma ViewCases(l0: seq<Table>, l1: seq<Table>, key: Bytes)
    ensures View(l0, l1, key) == Live(if Knows(l0, key) then FirstHit(Reversed(l0), key) else FirstHit(l1, key))
  {
    hide Lookup, Knows;
    FirstHitConcat(Reversed(l0), l1, key);
    KnowsReversed(l0, key);
    KnowsFirstHit(Reversed(l0), key);
  }

  lemma KnowsSuffix(l0: seq<Table>, j: nat, key: Bytes)
    requires j <= |l0|
    ensures Knows(l0[j..], key) ==>
              Knows(l0, key) && FirstHit(Reversed(l0[j..]), key) == FirstHit(Reversed(l0), key)
  {
    hide Lookup, Knows;
    assert l0[..j] + l0[j..] == l0;
    ReversedConcat(l0[..j], l0[j..]);
    FirstHitConcat(Reversed(l0[j..]), Reversed(l0[..j]), key);
    KnowsReversed(l0, key);
    KnowsReversed(l0[j..], key);
    KnowsFirstHit(Reversed(l0), key);
    KnowsFirstHit(Reversed(l0[j..]), key);
  }

  lemma MembersOfPush(l1: seq<Table>, m: Table)
    ensures WithMerged(l1 + [m], l1, m)
  {
    assert forall i | 0 <= i < |l1| :: (l1 + [m])[i] == l1[i];
  }
}
