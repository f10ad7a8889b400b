/** CRC-32 (section 3.2.9 of IEEE 802.3) as the log computes it, and its burst detection. */
module Crc32 {
  import opened Bytes

  // The bit-level operations have names, so that each inductive proof can hide the bits and
  // work from the few algebraic facts below.

  function Xor(a: bv32, b: bv32): bv32 { a ^ b }

  function Not(a: bv32): bv32 { !a }

  function Double(w: bv32): bv32 { w << 1 }

  function Half(w: bv32): bv32 { w >> 1 }

  predicate Odd(w: bv32) { w & 1 != 0 }

  /** The bit that `Double` drops is clear. */
  predicate TopBitClear(w: bv32) { w & 0x80000000 == 0 }

  const POLYNOMIAL: bv32 := 0xEDB88320

  /** One round of the inner loop: shift right, xor the polynomial if the lost bit was set. */
  function Step(crc: bv32): bv32 {
    Xor(Half(crc), if Odd(crc) then POLYNOMIAL else 0)
  }

  function Steps(crc: bv32, n: nat): bv32
    decreases n
  {
    if n == 0 then crc else Steps(Step(crc), n - 1)
  }

  function Lane(on: bool, w: bv32): bv32 { if on then w else 0 }

  /** `byte as u32`: the eight bits of the byte in the low lanes of a word. */
  function Widen(b: Byte): bv32 {
    var n := b as nat;
    Lane(Bit(n, 0), 0x01) | Lane(Bit(n, 1), 0x02) | Lane(Bit(n, 2), 0x04) | Lane(Bit(n, 3), 0x08) |
    Lane(Bit(n, 4), 0x10) | Lane(Bit(n, 5), 0x20) | Lane(Bit(n, 6), 0x40) | Lane(Bit(n, 7), 0x80)
  }

  /** The register after one byte. */
  function Feed(crc: bv32, b: Byte): bv32 {
    Steps(Xor(crc, Widen(b)), 8)
  }

  /** The register after feeding `data` to a register that held `crc`. */
  function Run(crc: bv32, data: Bytes): bv32
    decreases data
  {
    if data == [] then crc else Run(Feed(crc, data[0]), data[1..])
  }

  function Crc(data: Bytes): bv32 {
    Not(Run(0xFFFFFFFF, data))
  }

  method ComputeCrc(data: Bytes) returns (checksum: bv32)
    ensures checksum == Crc(data)
  {
    hide Step, Widen, Xor, Not;
    var crc: bv32 := 0xFFFFFFFF;
    for i := 0 to |data|
      invariant Run(crc, data[i..]) == Run(0xFFFFFFFF, data)
    {
      ghost var next := Feed(crc, data[i]);
      crc := Xor(crc, Widen(data[i]));
      for j := 0 to 8
        invariant Steps(crc, 8 - j) == next
      {
        crc := Step(crc);
      }
      assert data[i..][1..] == data[i + 1..];
    }
    checksum := Not(crc);
  }

  // ---------- bit-level facts ----------

  lemma StepInjective(a: bv32, b: bv32)
    requires Step(a) == Step(b)
    ensures a == b
  {
  }

  lemma XorAssociates(a: bv32, b: bv32, c: bv32)
    ensures Xor(Xor(a, b), c) == Xor(a, Xor(b, c))
  {
  }

  lemma XorSwaps(a: bv32, b: bv32, c: bv32)
    ensures Xor(Xor(a, b), c) == Xor(Xor(a, c), b)
  {
    hide Xor;
    XorAssociates(a, b, c);
    XorAssociates(a, c, b);
    XorCommutes(b, c);
  }

  lemma XorCommutes(a: bv32, b: bv32)
    ensures Xor(a, b) == Xor(b, a)
  {
  }

  lemma XorZero(a: bv32)
    ensures Xor(a, 0) == a
  {
  }

  lemma XorCancelsRight(a: bv32, b: bv32, c: bv32)
    requires Xor(a, c) == Xor(b, c)
    ensures a == b
  {
  }

  lemma XorCancelsLeft(a: bv32, b: bv32, c: bv32)
    requires Xor(a, b) == Xor(a, c)
    ensures b == c
  {
  }

  lemma NotInjective(a: bv32, b: bv32)
    requires Not(a) == Not(b)
    ensures a == b
  {
  }

  lemma HalfXor(crc: bv32, w: bv32)
    requires TopBitClear(w)
    ensures Odd(Xor(crc, Double(w))) == Odd(crc)
    ensures Half(Xor(crc, Double(w))) == Xor(Half(crc), w)
  {
    assert (crc ^ (w << 1)) & 1 == crc & 1;
  }

  /** A word whose bits a step does not lose can be xored in one step later. */
  lemma StepXor(crc: bv32, w: bv32)
    requires TopBitClear(w)
    ensures Step(Xor(crc, Double(w))) == Xor(Step(crc), w)
  {
    hide Xor, Double, Half, Odd, TopBitClear;
    HalfXor(crc, w);
    XorSwaps(Half(crc), w, if Odd(crc) then POLYNOMIAL else 0);
  }

  predicate LaneOn(w: bv32, mask: bv32) { w & mask != 0 }

  lemma WidenKeepsBits(b: Byte)
    ensures Bit(b as nat, 0) == LaneOn(Widen(b), 0x01) && Bit(b as nat, 1) == LaneOn(Widen(b), 0x02)
    ensures Bit(b as nat, 2) == LaneOn(Widen(b), 0x04) && Bit(b as nat, 3) == LaneOn(Widen(b), 0x08)
    ensures Bit(b as nat, 4) == LaneOn(Widen(b), 0x10) && Bit(b as nat, 5) == LaneOn(Widen(b), 0x20)
    ensures Bit(b as nat, 6) == LaneOn(Widen(b), 0x40) && Bit(b as nat, 7) == LaneOn(Widen(b), 0x80)
    ensures FitsIn(Widen(b), 1)
  {
    hide Bit;
  }

  lemma WidenInjective(a: Byte, b: Byte)
    requires Widen(a) == Widen(b)
    ensures a == b
  {
    hide Widen, LaneOn, Bit;
    WidenKeepsBits(a);
    WidenKeepsBits(b);
    assert Pow2(8) == 256;
    BitsDetermine(a as nat, b as nat, 8);
  }

  /** Only the lowest `n` bytes of `w` can be non-zero. */
  predicate FitsIn(w: bv32, n: nat) {
    if n == 0 then w == 0
    else if n == 1 then w & 0xFFFFFF00 == 0
    else if n == 2 then w & 0xFFFF0000 == 0
    else if n == 3 then w & 0xFF000000 == 0
    else true
  }

  function ShiftByte(w: bv32): bv32 { w << 8 }

  lemma PushZero(b: bv32)
    ensures b ^ (0 << 8) == b
  {
  }

  lemma PushOne(b: bv32, w: bv32)
    requires b & 0xFFFFFF00 == 0 && w & 0xFFFFFF00 == 0
    ensures (b ^ (w << 8)) & 0xFFFF0000 == 0
  {
  }

  lemma PushTwo(b: bv32, w: bv32)
    requires b & 0xFFFFFF00 == 0 && w & 0xFFFF0000 == 0
    ensures (b ^ (w << 8)) & 0xFF000000 == 0
  {
  }

  lemma OneByteFits(w: bv32)
    requires w & 0xFFFFFF00 == 0
    ensures w & 0xFF000000 == 0
  {
  }

  lemma TwoBytesFit(w: bv32)
    requires w & 0xFFFF0000 == 0
    ensures w & 0xFF000000 == 0
  {
  }

  lemma SplitByte(a: bv32, b: bv32, v: bv32, w: bv32)
    requires FitsIn(a, 1) && FitsIn(b, 1) && FitsIn(v, 3) && FitsIn(w, 3)
    requires Xor(a, ShiftByte(v)) == Xor(b, ShiftByte(w))
    ensures a == b && v == w
  {
  }

  // ---------- the register loses nothing ----------

  lemma {:induction false} StepsInjective(a: bv32, b: bv32, n: nat)
    requires Steps(a, n) == Steps(b, n)
    ensures a == b
    decreases n
  {
    hide Step;
    if n > 0 {
      StepsInjective(Step(a), Step(b), n - 1);
      StepInjective(a, b);
    }
  }

  lemma {:induction false} RunInjective(a: bv32, b: bv32, data: Bytes)
    requires Run(a, data) == Run(b, data)
    ensures a == b
    decreases data
  {
    hide Step, Steps, Widen, Xor;
    if data != [] {
      var w := Widen(data[0]);
      RunInjective(Feed(a, data[0]), Feed(b, data[0]), data[1..]);
      StepsInjective(Xor(a, w), Xor(b, w), 8);
      XorCancelsRight(a, b, w);
    }
  }

  lemma {:induction false} RunConcat(crc: bv32, a: Bytes, b: Bytes)
    ensures Run(crc, a + b) == Run(Run(crc, a), b)
    decreases a
  {
    hide Feed;
    if a == [] {
      assert a + b == b;
    } else {
      assert (a + b)[1..] == a[1..] + b;
      RunConcat(Feed(crc, a[0]), a[1..], b);
    }
  }

  lemma {:induction false} StepsConcat(crc: bv32, m: nat, n: nat)
    ensures Steps(crc, m + n) == Steps(Steps(crc, m), n)
    decreases m
  {
    hide Step;
    if m > 0 {
      StepsConcat(Step(crc), m - 1, n);
    }
  }

  // ---------- up to four bytes act as one 32-bit word ----------

  function Doubled(w: bv32, n: nat): bv32
    decreases n
  {
    if n == 0 then w else Double(Doubled(w, n - 1))
  }

  lemma {:induction false} StepsXor(crc: bv32, w: bv32, n: nat)
    requires forall i: nat | i < n :: TopBitClear(Doubled(w, i))
    ensures Steps(Xor(crc, Doubled(w, n)), n) == Xor(Steps(crc, n), w)
    decreases n
  {
    hide Step, Xor, Double, TopBitClear;
    if n > 0 {
      StepXor(crc, Doubled(w, n - 1));
      StepsXor(Step(crc), w, n - 1);
    }
  }

  lemma DoubledFour(w: bv32)
    ensures Doubled(w, 1) == w << 1 && Doubled(w, 2) == w << 2
    ensures Doubled(w, 3) == w << 3 && Doubled(w, 4) == w << 4
  {
  }

  lemma DoubledEight(w: bv32)
    requires FitsIn(w, 3)
    ensures Doubled(w, 8) == ShiftByte(w)
    ensures forall i: nat | i < 8 :: TopBitClear(Doubled(w, i))
  {
    DoubledFour(w);
    DoubledFour(w << 4);
    assert Doubled(w, 4 + 1) == Doubled(w << 4, 1);
    assert Doubled(w, 4 + 2) == Doubled(w << 4, 2);
    assert Doubled(w, 4 + 3) == Doubled(w << 4, 3);
    assert Doubled(w, 4 + 4) == Doubled(w << 4, 4);
  }

  lemma {:induction false} ByteXor(crc: bv32, w: bv32)
    requires FitsIn(w, 3)
    ensures Steps(Xor(crc, ShiftByte(w)), 8) == Xor(Steps(crc, 8), w)
  {
    hide Step, Steps, Doubled, Xor, ShiftByte, TopBitClear, FitsIn;
    DoubledEight(w);
    StepsXor(crc, w, 8);
  }

  /** The bytes as one word, the first byte lowest. */
  function Word(data: Bytes): bv32 {
    if data == [] then 0 else Xor(Widen(data[0]), ShiftByte(Word(data[1..])))
  }

  lemma {:induction false} WordFits(data: Bytes)
    requires |data| <= 4
    ensures FitsIn(Word(data), |data|)
    ensures |data| < 4 ==> FitsIn(Word(data), 3)
  {
    hide Widen;
    if data != [] {
      var b, w := Widen(data[0]), Word(data[1..]);
      WordFits(data[1..]);
      WidenKeepsBits(data[0]);
      if |data| == 1 {
        PushZero(b);
        OneByteFits(b);
      } else if |data| == 2 {
        PushOne(b, w);
        TwoBytesFit(Word(data));
      } else if |data| == 3 {
        PushTwo(b, w);
      }
    }
  }

  /** Feeding n <= 4 bytes is one xor of their word followed by 8n shift steps. */
  lemma {:induction false} FourBytesAreOneWord(crc: bv32, data: Bytes)
    requires |data| <= 4
    ensures Run(crc, data) == Steps(Xor(crc, Word(data)), 8 * |data|)
    decreases data
  {
    hide Step, Widen, Xor, ShiftByte, FitsIn;
    if data == [] {
      XorZero(crc);
    } else {
      var b, rest := Widen(data[0]), data[1..];
      var w := Word(rest);
      FourBytesAreOneWord(Feed(crc, data[0]), rest);
      WordFits(rest);
      ByteXor(Xor(crc, b), w);
      XorAssociates(crc, b, ShiftByte(w));
      StepsConcat(Xor(crc, Word(data)), 8, 8 * |rest|);
    }
  }

  lemma {:induction false} WordInjective(a: Bytes, b: Bytes)
    requires |a| == |b| <= 4
    requires Word(a) == Word(b)
    ensures a == b
  {
    hide Widen, Xor, ShiftByte, FitsIn;
    if a != [] {
      WidenKeepsBits(a[0]);
      WidenKeepsBits(b[0]);
      WordFits(a[1..]);
      WordFits(b[1..]);
      SplitByte(Widen(a[0]), Widen(b[0]), Word(a[1..]), Word(b[1..]));
      WidenInjective(a[0], b[0]);
      WordInjective(a[1..], b[1..]);
      assert a == [a[0]] + a[1..] && b == [b[0]] + b[1..];
    }
  }

  /** Replacing at most four consecutive bytes by different ones always changes the CRC. */
  lemma {:induction false} BurstChangesCrc(before: Bytes, a: Bytes, b: Bytes, after: Bytes)
    requires |a| == |b| <= 4 && a != b
    ensures Crc(before + a + after) != Crc(before + b + after)
  {
    hide Run, Steps, Word, Xor, Not;
    var init: bv32 := 0xFFFFFFFF;
    RunConcat(init, before + a, after);
    RunConcat(init, before + b, after);
    RunConcat(init, before, a);
    RunConcat(init, before, b);
    var crc := Run(init, before);
    if Crc(before + a + after) == Crc(before + b + after) {
      NotInjective(Run(init, before + a + after), Run(init, before + b + after));
      RunInjective(Run(crc, a), Run(crc, b), after);
      FourBytesAreOneWord(crc, a);
      FourBytesAreOneWord(crc, b);
      StepsInjective(Xor(crc, Word(a)), Xor(crc, Word(b)), 8 * |a|);
      XorCancelsLeft(crc, Word(a), Word(b));
      WordInjective(a, b);
    }
  }
}
