/** Sorted record lists and the lookup order every read path has to agree with. */
module Tables {
  import opened Wrappers
  import opened Bytes

  datatype Record = Record(key: Bytes, value: Bytes)

  /** What an SSTable holds, and what its iterator yields. */
  type Table = seq<Record>

  /** `b"__TOMBSTONE__"`. */
  const TOMBSTONE: Bytes := [0x5F, 0x5F, 0x54, 0x4F, 0x4D, 0x42, 0x53, 0x54, 0x4F, 0x4E, 0x45, 0x5F, 0x5F]

  /** `is_tombstone` applied to a lookup: a deleted key reads as absent. */
  function Live(found: Option<Bytes>): Option<Bytes> {
    if found == Some(TOMBSTONE) then None else found
  }

  /** The value spells the tombstone. */
  predicate SpellsTombstone(value: Bytes) {
    |value| == 13 && forall i | 0 <= i < 13 :: value[i] as int == "__TOMBSTONE__"[i] as int
  }

  /** A found value reads as absent exactly if it spells the tombstone, and otherwise, also if empty, as itself. */
  lemma LiveUnlessTombstone(value: Bytes)
    ensures Live(Some(value)) == if SpellsTombstone(value) then None else Some(value)
  {
    assert SpellsTombstone(TOMBSTONE);
    if SpellsTombstone(value) {
      assert forall i | 0 <= i < 13 :: value[i] as int == TOMBSTONE[i] as int;
      assert value == TOMBSTONE;
    }
  }

  predicate Sorted(t: Table) {
    forall i, j | 0 <= i < j < |t| :: Less(t[i].key, t[j].key)
  }

  predicate HasKey(t: Table, key: Bytes) {
    exists i | 0 <= i < |t| :: t[i].key == key
  }

  /** Linear search: the reference every index, filter and scan is compared with. */
  function Lookup(t: Table, key: Bytes): Option<Bytes> {
    if t == [] then None
    else if t[0].key == key then Some(t[0].value)
    else Lookup(t[1..], key)
  }

  /** The first table that knows the key decides. */
  function FirstHit(ts: seq<Table>, key: Bytes): Option<Bytes> {
    if ts == [] then None
    else if Lookup(ts[0], key).Some? then Lookup(ts[0], key)
    else FirstHit(ts[1..], key)
  }

  function Reversed<T>(s: seq<T>): (r: seq<T>)
    ensures |r| == |s|
  {
    if s == [] then [] else Reversed(s[1..]) + [s[0]]
  }

  // ---------- lookup ----------

  lemma {:induction false} LookupIffHasKey(t: Table, key: Bytes)
    ensures Lookup(t, key).Some? <==> HasKey(t, key)
  {
    if t != [] {
      LookupIffHasKey(t[1..], key);
      if HasKey(t, key) && t[0].key != key {
        var i :| 0 <= i < |t| && t[i].key == key;
        assert t[1..][i - 1].key == key;
      }
      if HasKey(t[1..], key) {
        var i :| 0 <= i < |t[1..]| && t[1..][i].key == key;
        assert t[i + 1].key == key;
      }
    }
  }

  lemma {:induction false} LookupAt(t: Table, i: nat)
    requires Sorted(t) && i < |t|
    ensures Lookup(t, t[i].key) == Some(t[i].value)
  {
    if i > 0 {
      LessIrreflexive(t[i].key);
      assert Less(t[0].key, t[i].key);
      LookupAt(t[1..], i - 1);
    }
  }

  lemma {:induction false} LookupConcat(a: Table, b: Table, key: Bytes)
    ensures Lookup(a + b, key) == if Lookup(a, key).Some? then Lookup(a, key) else Lookup(b, key)
  {
    if a == [] {
      assert a + b == b;
    } else {
      assert (a + b)[1..] == a[1..] + b;
      LookupConcat(a[1..], b, key);
    }
  }

  /** A sorted table is determined by its lookups. */
  lemma {:induction false} SortedTableIsUnique(a: Table, b: Table)
    requires Sorted(a) && Sorted(b)
    requires forall key :: Lookup(a, key) == Lookup(b, key)
    ensures a == b
  {
    LessIsStrictTotal();
    if a == [] {
      if b != [] {
        LookupAt(b, 0);
      }
    } else {
      assert Lookup(a, a[0].key).Some? && Lookup(b, a[0].key).Some?;
      LookupIffHasKey(b, a[0].key);
      LookupIffHasKey(a, b[0].key);
      assert Lookup(b, b[0].key).Some?;
      assert a[0].key == b[0].key;
      assert a[0].value == b[0].value;
      forall key ensures Lookup(a[1..], key) == Lookup(b[1..], key) {
        if key == a[0].key {
          LookupIffHasKey(a[1..], key);
          LookupIffHasKey(b[1..], key);
        } else {
          assert Lookup(a, key) == Lookup(b, key);
        }
      }
      SortedTableIsUnique(a[1..], b[1..]);
      assert a == [a[0]] + a[1..] && b == [b[0]] + b[1..];
    }
  }

  // ---------- first hit ----------

  lemma {:induction false} FirstHitConcat(a: seq<Table>, b: seq<Table>, key: Bytes)
    ensures FirstHit(a + b, key) == if FirstHit(a, key).Some? then FirstHit(a, key) else FirstHit(b, key)
  {
    if a == [] {
      assert a + b == b;
    } else {
      assert (a + b)[1..] == a[1..] + b;
      FirstHitConcat(a[1..], b, key);
    }
  }

  /** The first hit is the value in the lowest-numbered table that has the key. */
  lemma {:induction false} FirstHitAt(ts: seq<Table>, key: Bytes, i: nat)
    requires i < |ts| && Lookup(ts[i], key).Some?
    requires forall j | 0 <= j < i :: Lookup(ts[j], key).None?
    ensures FirstHit(ts, key) == Lookup(ts[i], key)
  {
    if i > 0 {
      FirstHitAt(ts[1..], key, i - 1);
    }
  }

  lemma {:induction false} FirstHitNone(ts: seq<Table>, key: Bytes)
    ensures FirstHit(ts, key).None? <==> forall j | 0 <= j < |ts| :: Lookup(ts[j], key).None?
  {
    if ts != [] {
      FirstHitNone(ts[1..], key);
      if forall j | 0 <= j < |ts[1..]| :: Lookup(ts[1..][j], key).None? {
        assert forall j | 1 <= j < |ts| :: ts[j] == ts[1..][j - 1];
      }
      if forall j | 0 <= j < |ts| :: Lookup(ts[j], key).None? {
        assert forall j | 0 <= j < |ts[1..]| :: ts[1..][j] == ts[j + 1];
      }
    }
  }

  /** The table a first hit comes from. */
  lemma {:induction false} FirstHitSource(ts: seq<Table>, key: Bytes) returns (i: nat)
    requires FirstHit(ts, key).Some?
    ensures i < |ts| && Lookup(ts[i], key) == FirstHit(ts, key)
    ensures forall j | 0 <= j < i :: Lookup(ts[j], key).None?
  {
    if Lookup(ts[0], key).Some? {
      i := 0;
    } else {
      var k := FirstHitSource(ts[1..], key);
      i := k + 1;
      forall j | 0 <= j < i ensures Lookup(ts[j], key).None? {
        if j > 0 {
          assert ts[1..][j - 1] == ts[j];
        }
      }
    }
  }

  lemma {:induction false} ReversedHas<T>(s: seq<T>)
    ensures forall x :: x in Reversed(s) <==> x in s
  {
    if s != [] {
      ReversedHas(s[1..]);
      assert s == [s[0]] + s[1..];
    }
  }

  lemma {:induction false} ReversedAt<T>(s: seq<T>, i: nat)
    requires i < |s|
    ensures Reversed(s)[i] == s[|s| - 1 - i]
  {
    if i < |s| - 1 {
      ReversedAt(s[1..], i);
    }
  }

  lemma {:induction false} ReversedConcat<T>(a: seq<T>, b: seq<T>)
    ensures Reversed(a + b) == Reversed(b) + Reversed(a)
  {
    if a == [] {
      assert a + b == b;
    } else {
      assert (a + b)[1..] == a[1..] + b;
      ReversedConcat(a[1..], b);
    }
  }
}
