/** The two standard sum types: an absent value, and a fallible call. */
module Wrappers {

  datatype Option<+T> = None | Some(value: T)

  datatype Result<+T, +E> = Ok(value: T) | Err(error: E)
}

/** Byte strings, the order Rust gives to `Vec<u8>`, and little-endian integers. */
module Bytes {

  newtype Byte = x: int | 0 <= x < 256
  type Bytes = seq<Byte>

  // ---------- bits ----------

  /** Bit `j` of `n`, the lowest bit first: `n & (1 << j) != 0`. */
  predicate Bit(n: nat, j: nat) {
    if j == 0 then n % 2 == 1 else Bit(n / 2, j - 1)
  }

  /** `n | (1 << j)`. */
  function WithBit(n: nat, j: nat): nat {
    if j > 0 then 2 * WithBit(n / 2, j - 1) + n % 2
    else if n % 2 == 1 then n
    else n + 1
  }

  function Pow2(width: nat): (p: nat)
    ensures p > 0
  {
    if width == 0 then 1 else 2 * Pow2(width - 1)
  }

  lemma TwiceProduct(p: nat, q: nat)
    ensures 2 * (p * q) == (2 * p) * q
  {
  }

  lemma {:induction false} Pow2Adds(a: nat, b: nat)
    ensures Pow2(a + b) == Pow2(a) * Pow2(b)
  {
    if a > 0 {
      Pow2Adds(a - 1, b);
      TwiceProduct(Pow2(a - 1), Pow2(b));
    }
  }

  lemma Pow2OfSixtyFour()
    ensures Pow2(64) == 0x1_0000_0000_0000_0000
  {
    assert Pow2(8) == 0x100;
    hide Pow2;
    Pow2Adds(8, 8);
    Pow2Adds(16, 16);
    Pow2Adds(32, 32);
  }

  /** `a ^ b`. */
  function Xored(a: nat, b: nat): nat
    decreases b
  {
    if b == 0 then a else 2 * Xored(a / 2, b / 2) + (a + b) % 2
  }

  lemma {:induction false} BitsDetermine(a: nat, b: nat, width: nat)
    requires a < Pow2(width) && b < Pow2(width)
    requires forall j: nat | j < width :: Bit(a, j) == Bit(b, j)
    ensures a == b
  {
    if width > 0 {
      forall j: nat | j < width - 1 ensures Bit(a / 2, j) == Bit(b / 2, j) {
        assert Bit(a, j + 1) == Bit(b, j + 1);
      }
      BitsDetermine(a / 2, b / 2, width - 1);
      assert Bit(a, 0) == Bit(b, 0);
    }
  }

  lemma {:induction false} WithBitSetsOneBit(n: nat, j: nat, i: nat)
    ensures Bit(WithBit(n, j), i) <==> i == j || Bit(n, i)
  {
    if j > 0 {
      var m := WithBit(n, j);
      assert m / 2 == WithBit(n / 2, j - 1) && m % 2 == n % 2;
      if i > 0 {
        WithBitSetsOneBit(n / 2, j - 1, i - 1);
      }
    }
  }

  lemma {:induction false} WithBitFits(n: nat, j: nat, width: nat)
    requires n < Pow2(width) && j < width
    ensures WithBit(n, j) < Pow2(width)
  {
    var half := Pow2(width - 1);
    assert Pow2(width) == 2 * half;
    if j > 0 {
      assert n / 2 < half;
      WithBitFits(n / 2, j - 1, width - 1);
      assert WithBit(n, j) == 2 * WithBit(n / 2, j - 1) + n % 2;
    }
  }

  lemma {:induction false} ZeroHasNoBits(j: nat)
    ensures !Bit(0, j)
  {
    if j > 0 {
      ZeroHasNoBits(j - 1);
    }
  }

  lemma OddSum(a: nat, b: nat)
    ensures (a + b) % 2 == (if (a % 2 == 1) != (b % 2 == 1) then 1 else 0)
  {
  }

  lemma Halves(q: nat, r: nat)
    requires r < 2
    ensures (2 * q + r) / 2 == q && (2 * q + r) % 2 == r
  {
  }

  lemma {:induction false} XoredBits(a: nat, b: nat, j: nat)
    ensures Bit(Xored(a, b), j) == (Bit(a, j) != Bit(b, j))
  {
    if b == 0 {
      ZeroHasNoBits(j);
    } else {
      OddSum(a, b);
      Halves(Xored(a / 2, b / 2), (a + b) % 2);
      if j > 0 {
        XoredBits(a / 2, b / 2, j - 1);
      }
    }
  }

  lemma XoredByHalves(a: nat, b: nat)
    ensures Xored(a, 0) == a
    ensures b > 0 ==> Xored(a, b) == 2 * Xored(a / 2, b / 2) + (a + b) % 2
  {
  }

  lemma {:induction false} XoredFits(a: nat, b: nat, width: nat)
    requires a < Pow2(width) && b < Pow2(width)
    ensures Xored(a, b) < Pow2(width)
  {
    if b > 0 {
      XoredFits(a / 2, b / 2, width - 1);
    }
  }

  /** The bits of a number are those of its low part and then those of its high part. */
  lemma {:induction false} BitSplits(low: nat, high: nat, width: nat, j: nat)
    requires low < Pow2(width)
    ensures Bit(low + Pow2(width) * high, j) == if j < width then Bit(low, j) else Bit(high, j - width)
  {
    if width > 0 {
      var rest := Pow2(width - 1) * high;
      var n := low + 2 * rest;
      assert Pow2(width) * high == 2 * rest;
      assert n % 2 == low % 2 && n / 2 == low / 2 + rest;
      if j > 0 {
        BitSplits(low / 2, high, width - 1, j - 1);
      }
    }
  }

  // ---------- lexicographic order ----------

  /** The order of `Vec<u8>`: bytewise, a proper prefix comes first. */
  predicate Less(a: Bytes, b: Bytes)
  {
    b != [] && (a == [] || a[0] < b[0] || (a[0] == b[0] && Less(a[1..], b[1..])))
  }

  predicate AtMost(a: Bytes, b: Bytes)
  {
    !Less(b, a)
  }

  function MinOf(a: Bytes, b: Bytes): Bytes
  {
    if Less(b, a) then b else a
  }

  function MaxOf(a: Bytes, b: Bytes): Bytes
  {
    if Less(a, b) then b else a
  }

  lemma {:induction false} LessIrreflexive(a: Bytes)
    ensures !Less(a, a)
  {
    if a != [] {
      LessIrreflexive(a[1..]);
    }
  }

  lemma {:induction false} LessTransitive(a: Bytes, b: Bytes, c: Bytes)
    requires Less(a, b) && Less(b, c)
    ensures Less(a, c)
  {
    if a != [] && a[0] == b[0] && b[0] == c[0] {
      LessTransitive(a[1..], b[1..], c[1..]);
    }
  }

  lemma {:induction false} LessConnected(a: Bytes, b: Bytes)
    ensures Less(a, b) || a == b || Less(b, a)
  {
    if a != [] && b != [] && a[0] == b[0] {
      LessConnected(a[1..], b[1..]);
      if a[1..] == b[1..] {
        assert a == [a[0]] + a[1..];
        assert b == [b[0]] + b[1..];
      }
    }
  }

  /** `n` is the length of what the two byte strings have in common, and there `a` ends or has the smaller byte. */
  predicate FirstDifference(a: Bytes, b: Bytes, n: nat) {
    n <= |a| && n < |b| && a[..n] == b[..n] && (n == |a| || a[n] < b[n])
  }

  /** `Less` is the lexicographic order. */
  lemma {:induction false} LessIsLexicographic(a: Bytes, b: Bytes)
    ensures Less(a, b) <==> exists n: nat :: FirstDifference(a, b, n)
  {
    if a == [] {
      assert b != [] ==> FirstDifference(a, b, 0);
    } else if b != [] && a[0] == b[0] {
      LessIsLexicographic(a[1..], b[1..]);
      if n: nat :| FirstDifference(a[1..], b[1..], n) {
        assert a[..n + 1] == [a[0]] + a[1..][..n] && b[..n + 1] == [b[0]] + b[1..][..n];
        assert FirstDifference(a, b, n + 1);
      }
      if n: nat :| FirstDifference(a, b, n) {
        assert a[1..][..n - 1] == a[..n][1..] && b[1..][..n - 1] == b[..n][1..];
        assert FirstDifference(a[1..], b[1..], n - 1);
      }
    } else if b != [] {
      assert FirstDifference(a, b, 0) <==> a[0] < b[0];
      assert forall n: nat | FirstDifference(a, b, n) && n > 0 :: a[..n][0] == b[..n][0];
    }
  }

  /** `Less` is a strict total order, as one quantified fact. */
  lemma LessIsStrictTotal()
    ensures forall a :: !Less(a, a)
    ensures forall a, b, c {:trigger Less(a, b), Less(b, c)} :: Less(a, b) && Less(b, c) ==> Less(a, c)
    ensures forall a, b {:trigger Less(a, b)} :: Less(a, b) ==> !Less(b, a)
    ensures forall a, b {:trigger Less(a, b)} :: Less(a, b) || a == b || Less(b, a)
  {
    forall a ensures !Less(a, a) { LessIrreflexive(a); }
    forall a, b, c | Less(a, b) && Less(b, c) ensures Less(a, c) { LessTransitive(a, b, c); }
    forall a, b | Less(a, b) ensures !Less(b, a) {
      if Less(b, a) { LessTransitive(a, b, a); LessIrreflexive(a); }
    }
    forall a, b ensures Less(a, b) || a == b || Less(b, a) { LessConnected(a, b); }
  }

  // ---------- little-endian integers ----------

  function Pow256(width: nat): (p: nat)
    ensures p > 0
  {
    if width == 0 then 1 else 256 * Pow256(width - 1)
  }

  /** `(n as uN).to_le_bytes()` for an integer of `width` bytes: the cast truncates. */
  function ToLe(n: nat, width: nat): (bytes: Bytes)
    ensures |bytes| == width
  {
    if width == 0 then [] else [(n % 256) as Byte] + ToLe(n / 256, width - 1)
  }

  /** `uN::from_le_bytes`. */
  function FromLe(bytes: Bytes): nat
  {
    if bytes == [] then 0 else bytes[0] as int + 256 * FromLe(bytes[1..])
  }

  lemma {:induction false} FromLeToLe(n: nat, width: nat)
    requires n < Pow256(width)
    ensures FromLe(ToLe(n, width)) == n
  {
    if width > 0 {
      FromLeToLe(n / 256, width - 1);
      var bytes := ToLe(n, width);
      assert bytes[1..] == ToLe(n / 256, width - 1);
      assert bytes[0] as int == n % 256;
    }
  }

  lemma {:induction false} ToLeFromLe(bytes: Bytes)
    ensures FromLe(bytes) < Pow256(|bytes|)
    ensures ToLe(FromLe(bytes), |bytes|) == bytes
  {
    if bytes != [] {
      ToLeFromLe(bytes[1..]);
      var n, b := FromLe(bytes), bytes[0] as int;
      assert n % 256 == b && n / 256 == FromLe(bytes[1..]);
      assert bytes == [bytes[0]] + bytes[1..];
    }
  }

  /** The bytes are the digits of the number in base 256, the lowest first. */
  lemma {:induction false} FromLeConcat(a: Bytes, b: Bytes)
    ensures FromLe(a + b) == FromLe(a) + Pow256(|a|) * FromLe(b)
    ensures forall x: Byte :: FromLe([x]) == x as nat
  {
    forall x: Byte ensures FromLe([x]) == x as nat {
      assert [x][1..] == [];
    }
    if a == [] {
      assert a + b == b;
    } else {
      assert (a + b)[1..] == a[1..] + b;
      FromLeConcat(a[1..], b);
      ScaledProduct(Pow256(|a| - 1), FromLe(b));
    }
  }

  lemma ScaledProduct(p: nat, q: nat)
    ensures 256 * (p * q) == (256 * p) * q
  {
  }

  /** The limits of the two field widths in use. */
  lemma FieldLimits()
    ensures Pow256(4) == 0x1_0000_0000 && Pow256(8) == 0x1_0000_0000_0000_0000
  {
  }
}
