/** The Bloom filter of an SSTable: a bit array addressed by double hashing. */
module Bloom {
  import opened Bytes

  /** Number of hash rounds and of bits. `BloomFilter::new` computes them in floating point; all
      the filter relies on is that a filter with rounds has bits (no keys give k = m = 0). */
  datatype Shape = Shape(k: nat, m: nat)

  type FilterShape = s: Shape | (s.k > 0 ==> s.m > 0) && s.k < Pow256(8) && s.m < Pow256(8)
    witness (assert Pow256(8) > 0; Shape(0, 0))

  function ByteLength(m: nat): nat { (m + 7) / 8 }

  // ---------- hashing ----------

  const WORD: nat := 0x1_0000_0000_0000_0000

  /** A 64-bit hash value. */
  type Hash = h: nat | h < WORD

  /** `hash ^= byte`, then `hash.wrapping_mul(prime)`. */
  function FnvStep(hash: Hash, b: Byte): Hash { (Xored(hash, b as nat) * 1099511628211) % WORD }

  /** `(hash << 5).wrapping_add(hash).wrapping_add(byte)`: the shift drops the highest five bits. */
  function DjbStep(hash: Hash, b: Byte): Hash { (((hash * 32) % WORD + hash) % WORD + b as nat) % WORD }

  function FnvRun(hash: Hash, key: Bytes): Hash
    decreases key
  {
    if key == [] then hash else FnvRun(FnvStep(hash, key[0]), key[1..])
  }

  function DjbRun(hash: Hash, key: Bytes): Hash
    decreases key
  {
    if key == [] then hash else DjbRun(DjbStep(hash, key[0]), key[1..])
  }

  function Fnv1a(key: Bytes): Hash { FnvRun(14695981039346656037, key) }

  function Djb2(key: Bytes): Hash { DjbRun(5381, key) }

  method ComputeFnv1a(key: Bytes) returns (hash: Hash)
    ensures hash == Fnv1a(key)
  {
    hide FnvStep;
    hash := 14695981039346656037;
    for i := 0 to |key|
      invariant FnvRun(hash, key[i..]) == Fnv1a(key)
    {
      assert key[i..][1..] == key[i + 1..];
      hash := FnvStep(hash, key[i]);
    }
  }

  method ComputeDjb2(key: Bytes) returns (hash: Hash)
    ensures hash == Djb2(key)
  {
    hide DjbStep;
    hash := 5381;
    for i := 0 to |key|
      invariant DjbRun(hash, key[i..]) == Djb2(key)
    {
      assert key[i..][1..] == key[i + 1..];
      hash := DjbStep(hash, key[i]);
    }
  }

  /** `h1.wrapping_add(i.wrapping_mul(h2))`. */
  function Combined(h1: Hash, h2: Hash, i: nat): Hash {
    (h1 + (i * h2) % WORD) % WORD
  }

  /** The bit that round `i` selects for a key. */
  function Position(key: Bytes, i: nat, m: nat): (pos: nat)
    requires m > 0
    ensures pos < m
  {
    Combined(Fnv1a(key), Djb2(key), i) % m
  }

  // ---------- what the hashes are ----------

  /** One step of FNV-1a: the bits of the byte flip the lowest bits of the hash, and the product with the 64-bit
      FNV prime is cut to 64 bits. */
  lemma FnvStepLaw(hash: Hash, b: Byte) returns (x: nat)
    ensures x < WORD && forall j: nat :: Bit(x, j) == (Bit(hash, j) != Bit(b as nat, j))
    ensures FnvStep(hash, b) == (x * 0x100000001B3) % 0x1_0000_0000_0000_0000
  {
    x := Xored(hash, b as nat);
    forall j: nat ensures Bit(x, j) == (Bit(hash, j) != Bit(b as nat, j)) {
      XoredBits(hash, b as nat, j);
    }
    Pow2OfSixtyFour();
    XoredFits(hash, b as nat, 64);
  }

  lemma FlipsOfA()
    ensures Xored(0xCBF29CE484222325, 0x61) == 0xCBF29CE484222344
  {
    hide Xored;
    XoredByHalves(0xCBF29CE484222325, 0x61);
    XoredByHalves(0x65F94E7242111192, 0x30);
    XoredByHalves(0x32FCA739210888C9, 0x18);
    XoredByHalves(0x197E539C90844464, 0x0C);
    XoredByHalves(0xCBF29CE48422232, 0x06);
    XoredByHalves(0x65F94E724211119, 0x03);
    XoredByHalves(0x32FCA739210888C, 0x01);
    XoredByHalves(0x197E539C9084446, 0);
  }

  lemma FlipsOfB()
    ensures Xored(0xCBF29CE484222325, 0x62) == 0xCBF29CE484222347
  {
    hide Xored;
    XoredByHalves(0xCBF29CE484222325, 0x62);
    XoredByHalves(0x65F94E7242111192, 0x31);
    XoredByHalves(0x32FCA739210888C9, 0x18);
    XoredByHalves(0x197E539C90844464, 0x0C);
    XoredByHalves(0xCBF29CE48422232, 0x06);
    XoredByHalves(0x65F94E724211119, 0x03);
    XoredByHalves(0x32FCA739210888C, 0x01);
    XoredByHalves(0x197E539C9084446, 0);
  }

  lemma HashOfOneByte(b: Byte)
    ensures Fnv1a([b]) == FnvStep(0xCBF29CE484222325, b) && Djb2([b]) == DjbStep(5381, b)
  {
    hide FnvStep, DjbStep;
    var key: Bytes := [b];
    assert key[1..] == [];
    assert FnvRun(FnvStep(0xCBF29CE484222325, b), key[1..]) == FnvStep(0xCBF29CE484222325, b);
    assert DjbRun(DjbStep(5381, b), key[1..]) == DjbStep(5381, b);
  }

  lemma StepOfA()
    ensures FnvStep(0xCBF29CE484222325, 0x61) == 0xAF63DC4C8601EC8C
  {
    FlipsOfA();
    hide Xored;
  }

  lemma StepOfB()
    ensures FnvStep(0xCBF29CE484222325, 0x62) == 0xAF63DF4C8601F1A5
  {
    FlipsOfB();
    hide Xored;
  }

  /** Values of 64-bit FNV-1a that its authors list: of the empty key, of "a" and of "b". */
  lemma FnvValues()
    ensures Fnv1a([]) == 0xCBF29CE484222325
    ensures Fnv1a([0x61]) == 0xAF63DC4C8601EC8C && Fnv1a([0x62]) == 0xAF63DF4C8601F1A5
  {
    hide FnvStep, FnvRun, Fnv1a;
    NothingHashed();
    StepOfA();
    StepOfB();
    HashOfOneByte(0x61);
    HashOfOneByte(0x62);
  }

  lemma NothingHashed()
    ensures Fnv1a([]) == 0xCBF29CE484222325
  {
  }

  function Pow33(n: nat): nat {
    if n == 0 then 1 else 33 * Pow33(n - 1)
  }

  /** The key as digits of a number in base 33, the first byte highest. */
  function Base33(key: Bytes): nat {
    if key == [] then 0 else key[0] as nat * Pow33(|key| - 1) + Base33(key[1..])
  }

  lemma WrapsTwice(x: nat, y: nat)
    ensures (x % WORD + y) % WORD == (x + y) % WORD
  {
  }

  lemma WrapsInProduct(x: nat, p: nat, y: nat)
    ensures (x % WORD * p + y) % WORD == (x * p + y) % WORD
  {
    var q := x / WORD;
    assert x * p + y == WORD * (q * p) + (x % WORD * p + y) by {
      assert x == WORD * q + x % WORD;
    }
    Multiples(q * p, x % WORD * p + y);
  }

  lemma Multiples(k: nat, y: nat)
    ensures (WORD * k + y) % WORD == y % WORD
  {
  }

  lemma DjbStepIsTimes33(hash: Hash, b: Byte)
    ensures DjbStep(hash, b) == (33 * hash + b as nat) % WORD
  {
    WrapsTwice(32 * hash, hash);
    WrapsTwice(33 * hash, b as nat);
  }

  lemma {:induction false} DjbRunIsBase33(hash: Hash, key: Bytes)
    ensures DjbRun(hash, key) == (hash * Pow33(|key|) + Base33(key)) % WORD
    decreases key
  {
    hide DjbStep;
    if key != [] {
      var p, rest, x := Pow33(|key| - 1), key[1..], 33 * hash + key[0] as nat;
      DjbStepIsTimes33(hash, key[0]);
      DjbRunIsBase33(DjbStep(hash, key[0]), rest);
      WrapsInProduct(x, p, Base33(rest));
      Distributes(hash, key[0] as nat, p);
    }
  }

  lemma Distributes(h: nat, b: nat, p: nat)
    ensures (33 * h + b) * p == h * (33 * p) + b * p
  {
  }

  /** djb2 in closed form: the initial value and the bytes as a number in base 33, cut to 64 bits. */
  lemma Djb2IsBase33(key: Bytes)
    ensures Djb2(key) == (5381 * Pow33(|key|) + Base33(key)) % 0x1_0000_0000_0000_0000
  {
    DjbRunIsBase33(5381, key);
  }

  /** Double hashing: round `i` selects `h1 + i * h2`, cut to 64 bits, modulo the number of bits. */
  lemma PositionIsDoubleHash(key: Bytes, i: nat, m: nat)
    requires m > 0
    ensures Position(key, i, m) == ((Fnv1a(key) + i * Djb2(key)) % 0x1_0000_0000_0000_0000) % m
  {
    WrapsTwice(i * Djb2(key), Fnv1a(key));
  }

  // ---------- the bit array ----------

  predicate IsSet(bits: Bytes, pos: nat)
    requires pos < 8 * |bits|
  {
    Bit(bits[pos / 8] as nat, pos % 8)
  }

  function OrBit(b: Byte, j: nat): Byte
    requires j < 8
  {
    assert Pow2(8) == 256;
    WithBitFits(b as nat, j, 8);
    WithBit(b as nat, j) as Byte
  }

  function SetBit(bits: Bytes, pos: nat): (r: Bytes)
    requires pos < 8 * |bits|
    ensures |r| == |bits|
  {
    bits[pos / 8 := OrBit(bits[pos / 8], pos % 8)]
  }

  /** Rounds `i..k` of an insertion. */
  function InsertFrom(bits: Bytes, s: FilterShape, key: Bytes, i: nat): (r: Bytes)
    requires |bits| == ByteLength(s.m) && i <= s.k
    ensures |r| == |bits|
    decreases s.k - i
  {
    if i == s.k then bits else InsertFrom(SetBit(bits, Position(key, i, s.m)), s, key, i + 1)
  }

  function Inserted(bits: Bytes, s: FilterShape, key: Bytes): (r: Bytes)
    requires |bits| == ByteLength(s.m)
    ensures |r| == |bits|
  {
    InsertFrom(bits, s, key, 0)
  }

  function Empty(s: FilterShape): (bits: Bytes)
    ensures |bits| == ByteLength(s.m)
  {
    seq(ByteLength(s.m), _ => 0)
  }

  /** The filter after inserting `keys` in order into an empty filter. */
  function FilterOf(keys: seq<Bytes>, s: FilterShape): (bits: Bytes)
    ensures |bits| == ByteLength(s.m)
  {
    if keys == [] then Empty(s) else Inserted(FilterOf(keys[..|keys| - 1], s), s, keys[|keys| - 1])
  }

  predicate MayContain(bits: Bytes, s: FilterShape, key: Bytes)
    requires |bits| == ByteLength(s.m)
  {
    forall i: nat | i < s.k :: IsSet(bits, Position(key, i, s.m))
  }

  /** Some round of `key` selects `pos`. */
  predicate Selects(s: FilterShape, key: Bytes, from: nat, pos: nat) {
    exists i: nat | from <= i < s.k :: Position(key, i, s.m) == pos
  }

  lemma SetBitSetsOneBit(bits: Bytes, pos: nat, other: nat)
    requires pos < 8 * |bits| && other < 8 * |bits|
    ensures IsSet(SetBit(bits, pos), other) <==> other == pos || IsSet(bits, other)
  {
    hide WithBit, Bit;
    WithBitSetsOneBit(bits[pos / 8] as nat, pos % 8, other % 8);
  }

  /** An insertion sets exactly the bits its rounds select. */
  lemma {:induction false} InsertFromBits(bits: Bytes, s: FilterShape, key: Bytes, from: nat, pos: nat)
    requires |bits| == ByteLength(s.m) && from <= s.k && pos < 8 * |bits|
    ensures IsSet(InsertFrom(bits, s, key, from), pos) <==> IsSet(bits, pos) || Selects(s, key, from, pos)
    decreases s.k - from
  {
    hide SetBit, IsSet, Position, Pow256;
    if from < s.k {
      var p := Position(key, from, s.m);
      InsertFromBits(SetBit(bits, p), s, key, from + 1, pos);
      SetBitSetsOneBit(bits, p, pos);
      if Selects(s, key, from, pos) {
        var i: nat :| from <= i < s.k && Position(key, i, s.m) == pos;
        assert i == from || Selects(s, key, from + 1, pos);
      }
    }
  }

  lemma InsertedBits(bits: Bytes, s: FilterShape, key: Bytes, pos: nat)
    requires |bits| == ByteLength(s.m) && pos < 8 * |bits|
    ensures IsSet(Inserted(bits, s, key), pos) <==> IsSet(bits, pos) || Selects(s, key, 0, pos)
  {
    hide InsertFrom, IsSet, Selects;
    InsertFromBits(bits, s, key, 0, pos);
  }

  /** Two bit arrays with the same bits are the same bytes. */
  lemma BitsDetermineBytes(a: Bytes, b: Bytes)
    requires |a| == |b|
    requires forall pos: nat | pos < 8 * |a| :: IsSet(a, pos) == IsSet(b, pos)
    ensures a == b
  {
    forall i | 0 <= i < |a| ensures a[i] == b[i] {
      hide Bit;
      var x, y := a[i] as nat, b[i] as nat;
      forall j: nat | j < 8 ensures Bit(x, j) == Bit(y, j) {
        assert (8 * i + j) / 8 == i && (8 * i + j) % 8 == j;
        assert IsSet(a, 8 * i + j) == IsSet(b, 8 * i + j);
      }
      assert Pow2(8) == 256;
      BitsDetermine(x, y, 8);
    }
  }

  /** Once a key may be contained, no later insertion changes that. */
  lemma InsertionKeepsKeys(bits: Bytes, s: FilterShape, key: Bytes, other: Bytes)
    requires |bits| == ByteLength(s.m) && (MayContain(bits, s, key) || key == other)
    ensures MayContain(Inserted(bits, s, other), s, key)
  {
    hide Inserted, IsSet, Position, Pow256;
    forall i: nat | i < s.k ensures IsSet(Inserted(bits, s, other), Position(key, i, s.m)) {
      InsertedBits(bits, s, other, Position(key, i, s.m));
    }
  }

  /** No false negatives: the filter of any insertion sequence may contain every inserted key. */
  lemma {:induction false} NoFalseNegatives(keys: seq<Bytes>, s: FilterShape, key: Bytes)
    requires key in keys
    ensures MayContain(FilterOf(keys, s), s, key)
  {
    hide MayContain, Inserted;
    var n := |keys| - 1;
    if key in keys[..n] {
      NoFalseNegatives(keys[..n], s, key);
    } else {
      assert key == keys[n];
    }
    InsertionKeepsKeys(FilterOf(keys[..n], s), s, key, keys[n]);
  }

  /** A filter claims a key exactly when every bit the key selects was selected by an inserted key. */
  lemma {:induction false} FilterBits(keys: seq<Bytes>, s: FilterShape, pos: nat)
    requires pos < 8 * ByteLength(s.m)
    ensures IsSet(FilterOf(keys, s), pos) <==> exists i | 0 <= i < |keys| :: Selects(s, keys[i], 0, pos)
  {
    hide Inserted, Selects;
    if keys == [] {
      EmptyByte();
    } else {
      var n := |keys| - 1;
      FilterBits(keys[..n], s, pos);
      InsertedBits(FilterOf(keys[..n], s), s, keys[n], pos);
    }
  }

  lemma SmallDoesNotWrap(x: nat)
    requires x < WORD
    ensures x % WORD == x
  {
  }

  lemma DjbOfOneByte(b: Byte)
    ensures Djb2([b]) == 177573 + b as nat
  {
    hide DjbRun, Djb2, DjbStep, FnvStep, Fnv1a;
    HashOfOneByte(b);
    DjbStepIsTimes33(5381, b);
    SmallDoesNotWrap(33 * 5381 + b as nat);
  }

  /** A round without wrap-around, by its quotient and remainder. */
  lemma Round(h1: Hash, h2: Hash, i: nat, q: nat, r: nat)
    requires h1 + i * h2 == 96 * q + r && 96 * q + r < WORD && r < 96
    ensures Combined(h1, h2, i) % 96 == r
  {
    SmallDoesNotWrap(i * h2);
    SmallDoesNotWrap(h1 + i * h2);
  }

  /** The seven bits that "a" selects among 96, and the first that "b" asks for. */
  lemma PositionsOfAAndB()
    ensures forall i: nat | i < 7 :: Position([0x61], i, 96) == [76, 50, 24, 94, 68, 42, 16][i]
    ensures Position([0x62], 0, 96) == 37
  {
    hide Fnv1a, Djb2, Combined;
    FnvValues();
    DjbOfOneByte(0x61);
    DjbOfOneByte(0x62);
    Round(0xAF63DC4C8601EC8C, 177670, 0, 0x1D3B4F621655A76, 76);
    Round(0xAF63DC4C8601EC8C, 177670, 1, 0x1D3B4F6216561B1, 50);
    Round(0xAF63DC4C8601EC8C, 177670, 2, 0x1D3B4F6216568EC, 24);
    Round(0xAF63DC4C8601EC8C, 177670, 3, 0x1D3B4F621657026, 94);
    Round(0xAF63DC4C8601EC8C, 177670, 4, 0x1D3B4F621657761, 68);
    Round(0xAF63DC4C8601EC8C, 177670, 5, 0x1D3B4F621657E9C, 42);
    Round(0xAF63DC4C8601EC8C, 177670, 6, 0x1D3B4F6216585D7, 16);
    Round(0xAF63DF4C8601F1A5, 177671, 0, 0x1D3B4FE21655A84, 37);
  }

  /** A filter does say no: with "a" inserted into 96 bits with 7 rounds, "b" is certainly absent. */
  lemma AbsentKeyIsDenied()
    ensures !MayContain(FilterOf([[0x61]], Shape(7, 96)), Shape(7, 96), [0x62])
  {
    assert Pow256(8) > 96;
    hide FilterOf, IsSet, Position, Fnv1a, Djb2, Pow256;
    var s: FilterShape := Shape(7, 96);
    PositionsOfAAndB();
    FilterBits([[0x61]], s, 37);
    assert !Selects(s, [0x61], 0, 37);
    assert !IsSet(FilterOf([[0x61]], s), Position([0x62], 0, 96));
  }

  /** What round `r` selects, by the two hashes alone. */
  function DoubleHash(key: Bytes, r: nat, m: nat): nat
    requires m > 0
  {
    ((Fnv1a(key) + r * Djb2(key)) % 0x1_0000_0000_0000_0000) % m
  }

  /** `hash` is one of the `k` double hashes of one of the keys. */
  predicate IsHashOfSome(hash: nat, keys: seq<Bytes>, s: FilterShape) {
    exists i, q: nat | 0 <= i < |keys| && q < s.k :: DoubleHash(keys[i], q, s.m) == hash
  }

  /** The exact answer of a filter: a key may be contained if and only if every one of its `k` double hashes is a
      double hash of some inserted key. */
  lemma FilterAnswerIff(keys: seq<Bytes>, s: FilterShape, key: Bytes)
    ensures MayContain(FilterOf(keys, s), s, key) <==>
            forall r: nat | r < s.k :: IsHashOfSome(DoubleHash(key, r, s.m), keys, s)
  {
    hide FilterOf, IsSet, Position, DoubleHash, IsHashOfSome, Pow256;
    forall r: nat | r < s.k
      ensures IsSet(FilterOf(keys, s), Position(key, r, s.m)) <==> IsHashOfSome(DoubleHash(key, r, s.m), keys, s)
    {
      PositionIsHash(key, r, s.m);
      RoundAnswer(keys, s, Position(key, r, s.m));
    }
  }

  lemma RoundAnswer(keys: seq<Bytes>, s: FilterShape, pos: nat)
    requires s.m > 0 && pos < s.m
    ensures IsSet(FilterOf(keys, s), pos) <==> IsHashOfSome(pos, keys, s)
  {
    hide FilterOf, IsSet, Position, DoubleHash, Pow256;
    FilterBits(keys, s, pos);
    forall i, q: nat | 0 <= i < |keys| && q < s.k ensures Position(keys[i], q, s.m) == DoubleHash(keys[i], q, s.m) {
      PositionIsHash(keys[i], q, s.m);
    }
    if IsHashOfSome(pos, keys, s) {
      var i, q: nat :| 0 <= i < |keys| && q < s.k && DoubleHash(keys[i], q, s.m) == pos;
      assert Selects(s, keys[i], 0, pos);
    }
  }

  lemma PositionIsHash(key: Bytes, r: nat, m: nat)
    requires m > 0
    ensures Position(key, r, m) == DoubleHash(key, r, m)
  {
    hide Fnv1a, Djb2, Position;
    PositionIsDoubleHash(key, r, m);
  }

  /** The filter depends only on which keys were inserted, not on their order or repetition. */
  lemma {:induction false} FilterDependsOnKeySet(a: seq<Bytes>, b: seq<Bytes>, s: FilterShape)
    requires forall key :: key in a <==> key in b
    ensures FilterOf(a, s) == FilterOf(b, s)
  {
    hide FilterOf, IsSet, Selects;
    forall pos: nat | pos < 8 * ByteLength(s.m) ensures IsSet(FilterOf(a, s), pos) == IsSet(FilterOf(b, s), pos) {
      FilterBits(a, s, pos);
      FilterBits(b, s, pos);
      forall i | 0 <= i < |a| ensures exists j | 0 <= j < |b| :: b[j] == a[i] { assert a[i] in b; }
      forall i | 0 <= i < |b| ensures exists j | 0 <= j < |a| :: a[j] == b[i] { assert b[i] in a; }
    }
    BitsDetermineBytes(FilterOf(a, s), FilterOf(b, s));
  }

  lemma EmptyByte()
    ensures forall j: nat :: !Bit(0, j)
  {
    forall j: nat ensures !Bit(0, j) { ZeroHasNoBits(j); }
  }

  /** The bit array as one little-endian number: bit `pos` of the filter is bit `pos` of the number. */
  lemma {:induction false} BitsAreOneNumber(bits: Bytes, pos: nat)
    requires pos < 8 * |bits|
    ensures IsSet(bits, pos) == Bit(FromLe(bits), pos)
  {
    hide Bit;
    var low, high := bits[0] as nat, FromLe(bits[1..]);
    assert Pow2(8) == 256;
    BitSplits(low, high, 8, pos);
    if pos >= 8 {
      BitsAreOneNumber(bits[1..], pos - 8);
      assert (pos - 8) / 8 == pos / 8 - 1 && (pos - 8) % 8 == pos % 8;
    }
  }

  /** The array has room for `m` bits, and no byte more than they need. */
  lemma ByteLengthIsCeiling(m: nat)
    ensures m <= 8 * ByteLength(m) < m + 8
  {
  }

  // ---------- serialisation ----------

  function ToBytesOf(bits: Bytes, s: Shape): Bytes {
    ToLe(s.k, 8) + ToLe(s.m, 8) + bits
  }

  lemma SerialisationRoundTrip(bits: Bytes, s: FilterShape)
    ensures var bytes := ToBytesOf(bits, s);
            |bytes| == 16 + |bits| && FromLe(bytes[..8]) == s.k && FromLe(bytes[8..16]) == s.m && bytes[16..] == bits
  {
    hide ToLe, FromLe, Pow256;
    var bytes := ToBytesOf(bits, s);
    FromLeToLe(s.k, 8);
    FromLeToLe(s.m, 8);
    assert bytes[..8] == ToLe(s.k, 8) && bytes[8..16] == ToLe(s.m, 8);
  }

  class BloomFilter {
    var bits: array<Byte>
    const k: nat
    const m: nat

    ghost predicate Valid()
      reads this, bits
    {
      (k > 0 ==> m > 0) && k < Pow256(8) && m < Pow256(8) && bits.Length == ByteLength(m)
    }

    ghost function Params(): FilterShape
      reads this, bits
      requires Valid()
    {
      Shape(k, m)
    }

    constructor (s: FilterShape)
      ensures Valid() && fresh(bits) && Params() == s
      ensures bits[..] == Empty(s)
    {
      k, m := s.k, s.m;
      bits := new Byte[ByteLength(s.m)](_ => 0);
    }

    method Insert(key: Bytes)
      requires Valid()
      modifies bits
      ensures Valid() && bits[..] == Inserted(old(bits[..]), Params(), key)
    {
      hide Pow256, Combined;
      var h1 := ComputeFnv1a(key);
      var h2 := ComputeDjb2(key);
      for i := 0 to k
        invariant Valid()
        invariant InsertFrom(bits[..], Params(), key, i) == Inserted(old(bits[..]), Params(), key)
      {
        var pos := Combined(h1, h2, i) % m;
        assert pos == Position(key, i, m);
        ghost var before := bits[..];
        bits[pos / 8] := OrBit(bits[pos / 8], pos % 8);
        assert bits[..] == SetBit(before, pos);
      }
    }

    method Contains(key: Bytes) returns (maybe: bool)
      requires Valid()
      ensures maybe == MayContain(bits[..], Params(), key)
    {
      hide Pow256, Combined, Bit;
      var h1 := ComputeFnv1a(key);
      var h2 := ComputeDjb2(key);
      for i := 0 to k
        invariant forall j: nat | j < i :: IsSet(bits[..], Position(key, j, m))
      {
        var pos := Combined(h1, h2, i) % m;
        assert pos == Position(key, i, m);
        assert bits[..][pos / 8] == bits[pos / 8];
        if !Bit(bits[pos / 8] as nat, pos % 8) {
          assert !IsSet(bits[..], Position(key, i, m));
          return false;
        }
      }
      maybe := true;
    }

    method ToBytes() returns (bytes: Bytes)
      requires Valid()
      ensures bytes == ToBytesOf(bits[..], Params())
    {
      bytes := ToLe(k, 8);
      bytes := bytes + ToLe(m, 8);
      bytes := bytes + bits[..];
    }

    /** `from_bytes`, for the byte strings on which it does not panic. */
    constructor FromBytes(bytes: Bytes)
      requires |bytes| >= 16
      ensures fresh(bits) && bits[..] == bytes[16..]
      ensures k == FromLe(bytes[..8]) && m == FromLe(bytes[8..16])
    {
      k := FromLe(bytes[0..8]);
      m := FromLe(bytes[8..16]);
      var rest := bytes[16..];
      bits := new Byte[|rest|](i requires 0 <= i < |rest| => rest[i]);
    }
  }
}
