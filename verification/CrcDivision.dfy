/** What the checksum is: the remainder of a polynomial division over GF(2), as section 3.2.9 of IEEE 802.3
    defines it. */
module CrcDivision {
  import opened Bytes
  import opened Crc32

  /** A polynomial over GF(2): its coefficients, the highest power first. */
  type Poly = seq<bool>

  function Zeros(n: nat): (p: Poly)
    ensures |p| == n
  {
    seq(n, _ => false)
  }

  function Ones(n: nat): (p: Poly)
    ensures |p| == n
  {
    seq(n, _ => true)
  }

  function Plus(a: Poly, b: Poly): (r: Poly)
    requires |a| == |b|
    ensures |r| == |a|
  {
    seq(|a|, i requires 0 <= i < |a| => a[i] != b[i])
  }

  /** The powers of x in the generator polynomial of the standard. */
  predicate HasPower(n: nat) {
    n in {32, 26, 23, 22, 16, 12, 11, 10, 8, 7, 5, 4, 2, 1, 0}
  }

  function Generator(): (g: Poly)
    ensures |g| == 33
  {
    seq(33, i requires 0 <= i < 33 => HasPower(32 - i))
  }

  /** The generator times x^n, or zero, with room for 33 + n coefficients. */
  function Multiple(on: bool, n: nat): (r: Poly)
    ensures |r| == 33 + n
  {
    if on then Generator() + Zeros(n) else Zeros(33 + n)
  }

  /** Schoolbook multiplication by the generator. */
  function Times(q: Poly): (r: Poly)
    ensures |r| == |q| + 32
  {
    if q == [] then Zeros(32) else Plus(Multiple(q[0], |q| - 1), [false] + Times(q[1..]))
  }

  /** A byte in the order it is transmitted, the lowest bit first. */
  function ByteBits(b: Byte): (p: Poly)
    ensures |p| == 8
  {
    seq(8, i requires 0 <= i < 8 => Bit(b as nat, i))
  }

  function Message(data: Bytes): (p: Poly)
    ensures |p| == 8 * |data|
  {
    if data == [] then [] else ByteBits(data[0]) + Message(data[1..])
  }

  /** Dividing `m` by the generator leaves `r`. */
  ghost predicate IsRemainder(m: Poly, r: Poly) {
    |m| >= 32 && |r| == 32 && exists q: Poly | |q| + 32 == |m| :: m == Plus(Times(q), Zeros(|q|) + r)
  }

  /** The dividend of the standard: the message times x^32, its first 32 bits complemented. */
  function Dividend(data: Bytes): (m: Poly)
    ensures |m| == 8 * |data| + 32
  {
    Plus(Ones(32) + Zeros(8 * |data|), Message(data) + Zeros(32))
  }

  /** The lowest `n` bits of a register, the lowest, which carries the highest power, first. */
  function BitsOf(w: bv32, n: nat): (p: Poly)
    ensures |p| == n
    decreases n
  {
    if n == 0 then [] else [Odd(w)] + BitsOf(Half(w), n - 1)
  }

  function Complement(p: Poly): (r: Poly)
    ensures |r| == |p|
  {
    seq(|p|, i requires 0 <= i < |p| => !p[i])
  }

  // ---------- division has one remainder ----------

  lemma PlusAt(a: Poly, b: Poly, i: nat)
    requires i < |a| == |b|
    ensures Plus(a, b)[i] == (a[i] != b[i])
  {
  }

  lemma MultipleAt(on: bool, n: nat, i: nat)
    requires i < 33 + n
    ensures Multiple(on, n)[i] == (on && i <= 32 && HasPower(32 - i))
  {
    hide HasPower;
  }

  lemma TimesAt(q: Poly, i: nat)
    requires q != [] && i < |q| + 32
    ensures Times(q)[i] == (Multiple(q[0], |q| - 1)[i] != (i > 0 && Times(q[1..])[i - 1]))
  {
    hide Multiple, Plus;
    var m, rest := Multiple(q[0], |q| - 1), Times(q[1..]);
    assert Times(q) == Plus(m, [false] + rest);
    hide Times;
    PlusAt(m, [false] + rest, i);
  }

  /** The first coefficient of a product is that of the factor. */
  lemma TimesHead(q: Poly)
    requires q != []
    ensures Times(q)[0] == q[0]
  {
    hide Times, Multiple;
    TimesAt(q, 0);
    MultipleAt(q[0], |q| - 1, 0);
  }

  lemma {:induction false} RemainderIsUnique(a: Poly, b: Poly, r: Poly, s: Poly)
    requires |a| == |b| && |r| == |s| == 32
    requires Plus(Times(a), Zeros(|a|) + r) == Plus(Times(b), Zeros(|b|) + s)
    ensures a == b && r == s
  {
    hide Times, Multiple;
    var x, y := Plus(Times(a), Zeros(|a|) + r), Plus(Times(b), Zeros(|b|) + s);
    if a == [] {
      assert Times(a) == Times(b);
      forall i | 0 <= i < 32 ensures r[i] == s[i] {
        assert x[i] == y[i] && (Zeros(|a|) + r)[i] == r[i] && (Zeros(|b|) + s)[i] == s[i];
      }
    } else {
      TimesHead(a);
      TimesHead(b);
      assert x[0] == a[0] && y[0] == b[0];
      var u, v := Plus(Times(a[1..]), Zeros(|a| - 1) + r), Plus(Times(b[1..]), Zeros(|b| - 1) + s);
      forall i | 0 <= i < |u| ensures u[i] == v[i] {
        TimesAt(a, i + 1);
        TimesAt(b, i + 1);
        assert x[i + 1] == y[i + 1];
        assert (Zeros(|a|) + r)[i + 1] == (Zeros(|a| - 1) + r)[i];
        assert (Zeros(|b|) + s)[i + 1] == (Zeros(|b| - 1) + s)[i];
      }
      RemainderIsUnique(a[1..], b[1..], r, s);
      assert a == [a[0]] + a[1..] && b == [b[0]] + b[1..];
    }
  }

  // ---------- registers as polynomials ----------

  lemma OddHalfXor(a: bv32, b: bv32)
    ensures Odd(Xor(a, b)) == (Odd(a) != Odd(b)) && Half(Xor(a, b)) == Xor(Half(a), Half(b))
  {
    assert (a ^ b) & 1 == (a & 1) ^ (b & 1);
  }

  lemma {:induction false} BitsOfXor(a: bv32, b: bv32, n: nat)
    ensures BitsOf(Xor(a, b), n) == Plus(BitsOf(a, n), BitsOf(b, n))
    decreases n
  {
    hide Xor, Half, Odd;
    if n > 0 {
      OddHalfXor(a, b);
      BitsOfXor(Half(a), Half(b), n - 1);
    }
  }

  function Halved(w: bv32, n: nat): bv32
    decreases n
  {
    if n == 0 then w else Half(Halved(w, n - 1))
  }

  lemma {:induction false} HalvedAgain(w: bv32, n: nat)
    ensures Halved(Half(w), n) == Half(Halved(w, n))
  {
    hide Half;
    if n > 0 {
      HalvedAgain(w, n - 1);
    }
  }

  lemma {:induction false} BitsOfPush(w: bv32, n: nat)
    ensures BitsOf(w, n + 1) == BitsOf(w, n) + [Odd(Halved(w, n))]
    decreases n
  {
    hide Half, Odd;
    if n > 0 {
      BitsOfPush(Half(w), n - 1);
      HalvedAgain(w, n - 1);
    } else {
      assert BitsOf(Half(w), 0) == [];
    }
  }

  lemma {:induction false} HalvedSum(w: bv32, m: nat, n: nat)
    ensures Halved(w, m + n) == Halved(Halved(w, m), n)
  {
    hide Half;
    if n > 0 {
      HalvedSum(w, m, n - 1);
    }
  }

  lemma HalvedTwo(w: bv32)
    ensures Halved(w, 2) == w >> 2
  {
    assert Halved(w, 1) == w >> 1;
  }

  lemma HalvedFour(w: bv32)
    ensures Halved(w, 4) == w >> 4
  {
    HalvedTwo(w);
    HalvedTwo(w >> 2);
    HalvedSum(w, 2, 2);
  }

  lemma HalvedEight(w: bv32)
    ensures Halved(w, 8) == w >> 8
  {
    HalvedFour(w);
    HalvedFour(w >> 4);
    HalvedSum(w, 4, 4);
  }

  lemma HalvedSixteen(w: bv32)
    ensures Halved(w, 16) == w >> 16
  {
    HalvedEight(w);
    HalvedEight(w >> 8);
    HalvedSum(w, 8, 8);
  }

  /** Nothing is left of a register after 32 halvings. */
  lemma HalvedAll(w: bv32)
    ensures Halved(w, 32) == 0
  {
    HalvedSixteen(w);
    HalvedSixteen(w >> 16);
    HalvedSum(w, 16, 16);
  }

  lemma BitsShift(w: bv32, n: nat)
    requires n > 0
    ensures BitsOf(w, n)[0] == Odd(w)
    ensures BitsOf(Half(w), n) == BitsOf(w, n)[1..] + [Odd(Halved(w, n))]
  {
    hide Half, Odd, Halved;
    BitsOfPush(w, n);
    assert (BitsOf(w, n) + [Odd(Halved(w, n))])[1..] == BitsOf(w, n)[1..] + [Odd(Halved(w, n))];
  }

  lemma BitsOfHalf(w: bv32)
    ensures BitsOf(w, 32)[0] == Odd(w)
    ensures BitsOf(Half(w), 32) == BitsOf(w, 32)[1..] + [false]
  {
    HalvedAll(w);
    hide Half, BitsOf, Halved;
    BitsShift(w, 32);
  }

  // ---------- one bit at a time ----------

  /** The register after feeding single bits, each followed by one step. */
  function RunBits(crc: bv32, bits: Poly): bv32
    decreases |bits|
  {
    if bits == [] then crc else RunBits(Step(Xor(crc, Lane(bits[0], 1))), bits[1..])
  }

  lemma {:induction false} BitsOfSum(w: bv32, m: nat, n: nat)
    ensures BitsOf(w, m + n) == BitsOf(w, m) + BitsOf(Halved(w, m), n)
    decreases m
  {
    hide Half, Odd;
    if m > 0 {
      BitsOfSum(Half(w), m - 1, n);
      HalvedAgain(w, m - 1);
    } else {
      assert BitsOf(w, 0) == [];
    }
  }

  lemma LowBitsOfPolynomial()
    ensures BitsOf(POLYNOMIAL, 8) == [false, false, false, false, false, true, false, false]
    ensures BitsOf(POLYNOMIAL >> 8, 8) == [true, true, false, false, false, false, false, true]
  {
  }

  lemma HighBitsOfPolynomial()
    ensures BitsOf(POLYNOMIAL >> 16, 8) == [false, false, false, true, true, true, false, true]
    ensures BitsOf(POLYNOMIAL >> 24, 8) == [true, false, true, true, false, true, true, true]
  {
  }

  lemma ShiftsAdd(w: bv32)
    ensures (w >> 16) >> 8 == w >> 24
  {
  }

  lemma BitsInFour(w: bv32)
    ensures BitsOf(w, 32) == BitsOf(w, 8) + BitsOf(w >> 8, 8) + BitsOf(w >> 16, 8) + BitsOf(w >> 24, 8)
  {
    hide BitsOf, Halved;
    HalvedEight(w);
    HalvedSixteen(w);
    HalvedEight(w >> 16);
    BitsOfSum(w, 16, 16);
    BitsOfSum(w, 8, 8);
    BitsOfSum(w >> 16, 8, 8);
    ShiftsAdd(w);
  }

  /** The constant of the shift register is the generator polynomial without its highest power. */
  lemma PolynomialIsGenerator()
    ensures BitsOf(POLYNOMIAL, 32) == Generator()[1..]
  {
    BitsInFour(POLYNOMIAL);
    LowBitsOfPolynomial();
    HighBitsOfPolynomial();
    hide BitsOf;
  }

  /** What a register bit and a message bit make of the register. */
  lemma StepBits(crc: bv32, b: bool)
    ensures var x := Xor(crc, Lane(b, 1));
            && Odd(x) == (BitsOf(crc, 32)[0] != b)
            && forall i | 0 <= i < 32 ::
                 BitsOf(Step(x), 32)[i] == ((i < 31 && BitsOf(crc, 32)[i + 1]) != (Odd(x) && HasPower(31 - i)))
  {
    var x := Xor(crc, Lane(b, 1));
    PolynomialIsGenerator();
    LaneBits(b);
    ZeroBits(32);
    hide BitsOf, Half, Odd, Xor, HasPower, Lane;
    BitsOfHalf(x);
    BitsOfHalf(crc);
    OddHalfXor(crc, Lane(b, 1));
    XorZero(Half(crc));
    BitsOfXor(Half(x), if Odd(x) then POLYNOMIAL else 0, 32);
    forall i | 0 <= i < 32
      ensures BitsOf(Step(x), 32)[i] == ((i < 31 && BitsOf(crc, 32)[i + 1]) != (Odd(x) && HasPower(31 - i)))
    {
      assert Generator()[1..][i] == HasPower(31 - i);
      assert Zeros(32)[i] == false;
    }
  }

  lemma LaneBits(b: bool)
    ensures Odd(Lane(b, 1)) == b && Half(Lane(b, 1)) == 0
  {
  }

  lemma {:induction false} ZeroBits(n: nat)
    ensures BitsOf(0, n) == Zeros(n)
  {
    assert !Odd(0) && Half(0) == 0;
    hide Half, Odd;
    if n > 0 {
      ZeroBits(n - 1);
    }
  }

  /** The register divides: a register and the bits still to come leave the register they lead to. */
  lemma {:induction false} BitDivision(crc: bv32, bits: Poly) returns (q: Poly)
    ensures |q| == |bits|
    ensures Plus(BitsOf(crc, 32) + Zeros(|bits|), bits + Zeros(32)) ==
            Plus(Times(q), Zeros(|bits|) + BitsOf(RunBits(crc, bits), 32))
    decreases |bits|
  {
    hide BitsOf, Times, Step, Xor, Odd, HasPower, Lane;
    var n := |bits|;
    if n == 0 {
      q := [];
      NoFactor();
    } else {
      var x := Xor(crc, Lane(bits[0], 1));
      StepBits(crc, bits[0]);
      var rest := BitDivision(Step(x), bits[1..]);
      q := [Odd(x)] + rest;
      TimesHead(q);
      assert q[1..] == rest;
      var left := Plus(BitsOf(crc, 32) + Zeros(n), bits + Zeros(32));
      var right := Plus(Times(q), Zeros(n) + BitsOf(RunBits(crc, bits), 32));
      assert left[0] == right[0];
      forall i | 1 <= i < n + 32 ensures left[i] == right[i] {
        DivisionAt(crc, bits, q, i);
      }
    }
  }

  lemma NoFactor()
    ensures Times([]) == Zeros(32)
  {
  }

  /** One coefficient of the induction step: taking the multiple off and moving on. */
  lemma DivisionAt(crc: bv32, bits: Poly, q: Poly, i: nat)
    requires |q| == |bits| > 0 && 1 <= i < |bits| + 32
    requires q[0] == Odd(Xor(crc, Lane(bits[0], 1)))
    requires var next := Step(Xor(crc, Lane(bits[0], 1)));
             Plus(BitsOf(next, 32) + Zeros(|bits| - 1), bits[1..] + Zeros(32)) ==
             Plus(Times(q[1..]), Zeros(|bits| - 1) + BitsOf(RunBits(next, bits[1..]), 32))
    ensures Plus(BitsOf(crc, 32) + Zeros(|bits|), bits + Zeros(32))[i] ==
            Plus(Times(q), Zeros(|bits|) + BitsOf(RunBits(crc, bits), 32))[i]
  {
    hide BitsOf, Times, Step, Xor, Odd, HasPower, Lane, Multiple;
    var next := Step(Xor(crc, Lane(bits[0], 1)));
    var left := Plus(BitsOf(next, 32) + Zeros(|bits| - 1), bits[1..] + Zeros(32));
    assert RunBits(crc, bits) == RunBits(next, bits[1..]);
    hide RunBits, Plus;
    LeftAt(crc, bits, i);
    RightAt(q, BitsOf(RunBits(crc, bits), 32), i);
    assert left[i - 1] == Plus(Times(q[1..]), Zeros(|bits| - 1) + BitsOf(RunBits(crc, bits), 32))[i - 1];
  }

  lemma LeftAt(crc: bv32, bits: Poly, i: nat)
    requires bits != [] && 1 <= i < |bits| + 32
    ensures var x, n := Xor(crc, Lane(bits[0], 1)), |bits|;
            Plus(BitsOf(crc, 32) + Zeros(n), bits + Zeros(32))[i] ==
            (Multiple(Odd(x), n - 1)[i] != Plus(BitsOf(Step(x), 32) + Zeros(n - 1), bits[1..] + Zeros(32))[i - 1])
  {
    hide BitsOf, Step, Xor, Odd, HasPower, Lane, Multiple;
    var x, n := Xor(crc, Lane(bits[0], 1)), |bits|;
    StepBits(crc, bits[0]);
    MultipleAt(Odd(x), n - 1, i);
    assert (bits[1..] + Zeros(32))[i - 1] == (bits + Zeros(32))[i];
    assert (BitsOf(Step(x), 32) + Zeros(n - 1))[i - 1] == (i <= 32 && BitsOf(Step(x), 32)[i - 1]);
    assert (BitsOf(crc, 32) + Zeros(n))[i] == (i < 32 && BitsOf(crc, 32)[i]);
  }

  lemma RightAt(q: Poly, r: Poly, i: nat)
    requires q != [] && |r| == 32 && 1 <= i < |q| + 32
    ensures Plus(Times(q), Zeros(|q|) + r)[i] ==
            (Multiple(q[0], |q| - 1)[i] != Plus(Times(q[1..]), Zeros(|q| - 1) + r)[i - 1])
  {
    TimesAt(q, i);
    ShiftedSum(Times(q), Times(q[1..]), r, |q| - 1, i);
  }

  lemma ShiftedSum(a: Poly, b: Poly, r: Poly, n: nat, i: nat)
    requires |r| == 32 && |a| == n + 33 && |b| == n + 32 && 1 <= i < n + 33
    ensures Plus(a, Zeros(n + 1) + r)[i] == (a[i] != (b[i - 1] != Plus(b, Zeros(n) + r)[i - 1]))
  {
    assert (Zeros(n) + r)[i - 1] == (Zeros(n + 1) + r)[i];
  }

  // ---------- bytes are fed bit by bit ----------

  /** `w` has no bits beyond the lowest `n`. */
  predicate Within(w: bv32, n: nat)
    decreases n
  {
    if n == 0 then w == 0 else Within(Half(w), n - 1)
  }

  lemma {:induction false} WithinHalved(w: bv32, n: nat)
    ensures Within(w, n) <==> Halved(w, n) == 0
    decreases n
  {
    hide Half;
    if n > 0 {
      WithinHalved(Half(w), n - 1);
      HalvedAgain(w, n - 1);
    }
  }

  lemma SplitLowBit(crc: bv32, w: bv32)
    ensures TopBitClear(Half(w))
    ensures Xor(Xor(crc, Lane(Odd(w), 1)), Double(Half(w))) == Xor(crc, w)
  {
    assert w == Xor(Lane(Odd(w), 1), Double(Half(w)));
  }

  /** Feeding the `n` lowest bits one by one is one xor followed by `n` steps. */
  lemma {:induction false} RunBitsOf(crc: bv32, w: bv32, n: nat)
    requires Within(w, n)
    ensures RunBits(crc, BitsOf(w, n)) == Steps(Xor(crc, w), n)
    decreases n
  {
    hide Step, Half, Odd, Xor, Double, TopBitClear, Lane;
    if n == 0 {
      XorZero(crc);
    } else {
      var x := Xor(crc, Lane(Odd(w), 1));
      RunBitsOf(Step(x), Half(w), n - 1);
      SplitLowBit(crc, w);
      StepXor(x, Half(w));
      assert BitsOf(w, n)[1..] == BitsOf(Half(w), n - 1);
    }
  }

  lemma FourLanes(w: bv32)
    ensures BitsOf(w, 4) == [LaneOn(w, 0x01), LaneOn(w, 0x02), LaneOn(w, 0x04), LaneOn(w, 0x08)]
  {
  }

  lemma LanesShift(w: bv32)
    ensures LaneOn(w >> 4, 0x01) == LaneOn(w, 0x10) && LaneOn(w >> 4, 0x02) == LaneOn(w, 0x20)
    ensures LaneOn(w >> 4, 0x04) == LaneOn(w, 0x40) && LaneOn(w >> 4, 0x08) == LaneOn(w, 0x80)
  {
  }

  lemma ByteLanes(w: bv32)
    ensures BitsOf(w, 8) == [LaneOn(w, 0x01), LaneOn(w, 0x02), LaneOn(w, 0x04), LaneOn(w, 0x08),
                             LaneOn(w, 0x10), LaneOn(w, 0x20), LaneOn(w, 0x40), LaneOn(w, 0x80)]
  {
    hide BitsOf, LaneOn, Halved;
    HalvedFour(w);
    BitsOfSum(w, 4, 4);
    FourLanes(w);
    FourLanes(w >> 4);
    LanesShift(w);
  }

  lemma ByteIsWithin(w: bv32)
    requires FitsIn(w, 1)
    ensures Within(w, 8)
  {
    WithinHalved(w, 8);
    HalvedEight(w);
  }

  lemma BitsOfWiden(b: Byte)
    ensures BitsOf(Widen(b), 8) == ByteBits(b) && Within(Widen(b), 8)
  {
    hide Widen, BitsOf, Bit, LaneOn, Within, FitsIn;
    WidenKeepsBits(b);
    ByteLanes(Widen(b));
    ByteIsWithin(Widen(b));
  }

  lemma {:induction false} RunBitsConcat(crc: bv32, a: Poly, b: Poly)
    ensures RunBits(crc, a + b) == RunBits(RunBits(crc, a), b)
    decreases |a|
  {
    hide Step, Xor, Lane;
    if a == [] {
      assert a + b == b;
    } else {
      assert (a + b)[1..] == a[1..] + b;
      RunBitsConcat(Step(Xor(crc, Lane(a[0], 1))), a[1..], b);
    }
  }

  lemma {:induction false} RunIsBitwise(crc: bv32, data: Bytes)
    ensures RunBits(crc, Message(data)) == Run(crc, data)
    decreases data
  {
    hide Step, Steps, Xor, Widen, ByteBits;
    if data != [] {
      BitsOfWiden(data[0]);
      RunBitsOf(crc, Widen(data[0]), 8);
      RunBitsConcat(crc, ByteBits(data[0]), Message(data[1..]));
      RunIsBitwise(Feed(crc, data[0]), data[1..]);
    }
  }

  lemma OnesBits()
    ensures BitsOf(0xFFFFFFFF, 32) == Ones(32)
  {
    BitsInFour(0xFFFFFFFF);
    LowOnes();
    hide BitsOf;
  }

  lemma LowOnes()
    ensures forall w: bv32 | w & 0xFF == 0xFF :: BitsOf(w, 8) == Ones(8)
  {
    forall w: bv32 | w & 0xFF == 0xFF ensures BitsOf(w, 8) == Ones(8) {
      ByteLanes(w);
      hide BitsOf;
    }
  }

  lemma ComplementBits(w: bv32)
    ensures BitsOf(Not(w), 32) == Complement(BitsOf(w, 32))
  {
    hide BitsOf;
    OnesBits();
    NotIsXor(w);
    BitsOfXor(w, 0xFFFFFFFF, 32);
  }

  lemma NotIsXor(w: bv32)
    ensures Not(w) == Xor(w, 0xFFFFFFFF)
  {
  }

  // ---------- the checksum ----------

  /** `c` is the checksum of the data exactly if its complement is the remainder of the standard's division. */
  lemma CrcIsRemainderIff(data: Bytes, c: bv32)
    ensures c == Crc(data) <==> IsRemainder(Dividend(data), Complement(BitsOf(c, 32)))
  {
    hide Run, Message, BitsOf, Times, Not, Complement;
    var init: bv32, bits := 0xFFFFFFFF, Message(data);
    var q := BitDivision(init, bits);
    OnesBits();
    RunIsBitwise(init, data);
    var r := Run(init, data);
    assert Dividend(data) == Plus(Times(q), Zeros(|q|) + BitsOf(r, 32));
    CrcComplements(data);
    if IsRemainder(Dividend(data), Complement(BitsOf(c, 32))) {
      var p: Poly :| |p| == |q| && Dividend(data) == Plus(Times(p), Zeros(|p|) + Complement(BitsOf(c, 32)));
      RemainderIsUnique(p, q, Complement(BitsOf(c, 32)), BitsOf(r, 32));
      ComplementInjective(BitsOf(c, 32), BitsOf(Crc(data), 32));
      BitsDetermineWord(c, Crc(data));
    }
  }

  lemma CrcComplements(data: Bytes)
    ensures Complement(BitsOf(Crc(data), 32)) == BitsOf(Run(0xFFFFFFFF, data), 32)
  {
    hide Run, BitsOf, Not;
    ComplementBits(Run(0xFFFFFFFF, data));
  }

  lemma ComplementInjective(a: Poly, b: Poly)
    requires Complement(a) == Complement(b)
    ensures a == b
  {
    assert |a| == |b|;
    forall i | 0 <= i < |a| ensures a[i] == b[i] {
      assert Complement(a)[i] == Complement(b)[i];
    }
  }

  lemma BitsDetermineWord(a: bv32, b: bv32)
    requires BitsOf(a, 32) == BitsOf(b, 32)
    ensures a == b
  {
    hide BitsOf, Halved;
    HalvedAll(a);
    HalvedAll(b);
    BitsDetermineHalved(a, b, 32);
  }

  lemma {:induction false} BitsDetermineHalved(a: bv32, b: bv32, n: nat)
    requires BitsOf(a, n) == BitsOf(b, n) && Halved(a, n) == Halved(b, n)
    ensures a == b
    decreases n
  {
    hide Half, Odd;
    if n > 0 {
      assert BitsOf(a, n)[0] == BitsOf(b, n)[0];
      assert BitsOf(Half(a), n - 1) == BitsOf(a, n)[1..] && BitsOf(Half(b), n - 1) == BitsOf(b, n)[1..];
      HalvedAgain(a, n - 1);
      HalvedAgain(b, n - 1);
      BitsDetermineHalved(Half(a), Half(b), n - 1);
      HalfAndOdd(a, b);
    }
  }

  lemma HalfAndOdd(a: bv32, b: bv32)
    requires Half(a) == Half(b) && Odd(a) == Odd(b)
    ensures a == b
  {
  }

  // ---------- data followed by its checksum ----------

  /** The register as a number. */
  function Number(w: bv32): nat { w as nat }

  lemma ShiftEven(a: bv32)
    requires a < 0x80000000
    ensures Number(a << 1) == 2 * Number(a)
  {
  }

  lemma ShiftOdd(a: bv32)
    requires a < 0x80000000
    ensures Number((a << 1) | 1) == 2 * Number(a) + 1
  {
  }

  lemma WordSplits(w: bv32)
    ensures Number(w) == 2 * Number(Half(w)) + (if Odd(w) then 1 else 0)
  {
    hide Number;
    HalfIsSmall(w);
    if Odd(w) {
      ShiftOdd(Half(w));
    } else {
      ShiftEven(Half(w));
    }
  }

  lemma HalfIsSmall(w: bv32)
    ensures Half(w) < 0x80000000
    ensures w == if Odd(w) then (Half(w) << 1) | 1 else Half(w) << 1
  {
  }

  lemma {:induction false} BitsOfNumber(w: bv32, n: nat)
    ensures forall i | 0 <= i < n :: BitsOf(w, n)[i] == Bit(Number(w), i)
    decreases n
  {
    hide Half, Odd, Number;
    if n > 0 {
      WordSplits(w);
      BitsOfNumber(Half(w), n - 1);
    }
  }

  lemma {:induction false} MessageOfLe(n: nat, width: nat)
    ensures forall i | 0 <= i < 8 * width :: Message(ToLe(n, width))[i] == Bit(n, i)
  {
    if width > 0 {
      var low := (n % 256) as Byte;
      MessageOfLe(n / 256, width - 1);
      forall i | 0 <= i < 8 * width ensures Message(ToLe(n, width))[i] == Bit(n, i) {
        assert Pow2(8) == 256;
        BitSplits(n % 256, n / 256, 8, i);
      }
    }
  }

  /** The residue: data followed by its own checksum always leaves the same register. */
  lemma Residue(data: Bytes)
    ensures Run(0xFFFFFFFF, data + ToLe(Crc(data) as nat, 4)) == 0xDEBB20E3
  {
    hide Run, Not, Message, BitsOf, ToLe, Steps;
    var r, c := Run(0xFFFFFFFF, data), Crc(data);
    var seal := ToLe(c as nat, 4);
    RunConcat(0xFFFFFFFF, data, seal);
    RunIsBitwise(r, seal);
    MessageOfLe(c as nat, 4);
    BitsOfNumber(c, 32);
    assert Message(seal) == BitsOf(c, 32);
    HalvedAll(c);
    WithinHalved(c, 32);
    RunBitsOf(r, c, 32);
    XorNot(r);
    StepsOfOnes();
  }

  lemma XorNot(w: bv32)
    ensures Xor(w, Not(w)) == 0xFFFFFFFF
  {
  }

  lemma StepsOfOnes()
    ensures Steps(0xFFFFFFFF, 32) == 0xDEBB20E3
  {
    FirstSteps();
    LastSteps();
    hide Step, Steps;
    StepsConcat(0xFFFFFFFF, 8, 24);
    StepsConcat(0x2DFD1072, 8, 16);
    StepsConcat(0xBE26ED00, 8, 8);
  }

  lemma FirstSteps()
    ensures Steps(0xFFFFFFFF, 8) == 0x2DFD1072 && Steps(0x2DFD1072, 8) == 0xBE26ED00
  {
  }

  lemma LastSteps()
    ensures Steps(0xBE26ED00, 8) == 0x00BE26ED && Steps(0x00BE26ED, 8) == 0xDEBB20E3
  {
  }

  lemma WidenDigits()
    ensures Widen(0x31) == 0x31 && Widen(0x32) == 0x32 && Widen(0x33) == 0x33
    ensures Widen(0x34) == 0x34 && Widen(0x35) == 0x35 && Widen(0x36) == 0x36
    ensures Widen(0x37) == 0x37 && Widen(0x38) == 0x38 && Widen(0x39) == 0x39
  {
  }

  lemma DigitsFrom1()
    ensures Feed(0xFFFFFFFF, 0x31) == 0x7C231048
    ensures Feed(0x7C231048, 0x32) == 0xB0ACBB32
    ensures Feed(0xB0ACBB32, 0x33) == 0x77B79C2D
  {
    hide Widen;
    WidenDigits();
    assert Steps(0xFFFFFFCE, 8) == 0x7C231048;
    assert Steps(0x7C23107A, 8) == 0xB0ACBB32;
    assert Steps(0xB0ACBB01, 8) == 0x77B79C2D;
  }

  lemma DigitsFrom4()
    ensures Feed(0x77B79C2D, 0x34) == 0x641C1F5C
    ensures Feed(0x641C1F5C, 0x35) == 0x340AC5E3
    ensures Feed(0x340AC5E3, 0x36) == 0xF68D2C9E
  {
    hide Widen;
    WidenDigits();
    assert Steps(0x77B79C19, 8) == 0x641C1F5C;
    assert Steps(0x641C1F69, 8) == 0x340AC5E3;
    assert Steps(0x340AC5D5, 8) == 0xF68D2C9E;
  }

  lemma DigitsFrom7()
    ensures Feed(0xF68D2C9E, 0x37) == 0xAFFC9660
    ensures Feed(0xAFFC9660, 0x38) == 0x651F2550
    ensures Feed(0x651F2550, 0x39) == 0x340BC6D9
  {
    hide Widen;
    WidenDigits();
    assert Steps(0xF68D2CA9, 8) == 0xAFFC9660;
    assert Steps(0xAFFC9658, 8) == 0x651F2550;
    assert Steps(0x651F2569, 8) == 0x340BC6D9;
  }

  lemma RunOne(crc: bv32, b: Byte, rest: Bytes)
    ensures Run(crc, [b] + rest) == Run(Feed(crc, b), rest)
  {
    hide Feed;
    assert ([b] + rest)[1..] == rest;
  }

  lemma RunThree(crc: bv32, a: Byte, b: Byte, c: Byte)
    ensures Run(crc, [a, b, c]) == Feed(Feed(Feed(crc, a), b), c)
  {
    hide Feed;
    RunOne(crc, a, [b, c]);
    RunOne(Feed(crc, a), b, [c]);
    RunOne(Feed(Feed(crc, a), b), c, []);
    assert [a, b, c] == [a] + [b, c] && [b, c] == [b] + [c] && [c] == [c] + [];
  }

  /** The check value that catalogues list for this checksum: that of the digits 1 to 9. */
  lemma CheckValue()
    ensures Crc([0x31, 0x32, 0x33, 0x34, 0x35, 0x36, 0x37, 0x38, 0x39]) == 0xCBF43926
  {
    hide Feed, Run;
    var a, b, c: Bytes := [0x31, 0x32, 0x33], [0x34, 0x35, 0x36], [0x37, 0x38, 0x39];
    DigitsFrom1();
    DigitsFrom4();
    DigitsFrom7();
    RunThree(0xFFFFFFFF, 0x31, 0x32, 0x33);
    RunThree(0x77B79C2D, 0x34, 0x35, 0x36);
    RunThree(0xF68D2C9E, 0x37, 0x38, 0x39);
    RunConcat(0xFFFFFFFF, a, b + c);
    RunConcat(0x77B79C2D, b, c);
    assert a + (b + c) == [0x31, 0x32, 0x33, 0x34, 0x35, 0x36, 0x37, 0x38, 0x39];
  }
}
