/** File names: the level and timestamp they carry, and the order a directory scan sorts by. */
module Names {
  import opened Wrappers

  type Name = string

  const WAL_NAME: Name := "wal.log"

  // ---------- decimal numbers ----------

  function Digit(d: nat): char
    requires d < 10
  {
    '0' + d as char
  }

  function Decimal(n: nat): (s: string)
    ensures |s| > 0
  {
    if n < 10 then [Digit(n)] else Decimal(n / 10) + [Digit(n % 10)]
  }

  predicate IsDigit(c: char) { '0' <= c <= '9' }

  function DigitValue(c: char): (d: nat)
    requires IsDigit(c)
    ensures d < 10
  {
    (c - '0') as nat
  }

  predicate AllDigits(s: string) { forall i | 0 <= i < |s| :: IsDigit(s[i]) }

  function ValueOf(s: string): nat
    requires AllDigits(s)
  {
    if s == [] then 0 else 10 * ValueOf(s[..|s| - 1]) + DigitValue(s[|s| - 1])
  }

  const USIZE_LIMIT: nat := 0x1_0000_0000_0000_0000

  /** `str::parse::<usize>`: one optional plus sign, at least one digit, no overflow. */
  function ParseUsize(s: string): Option<nat> {
    var digits := if |s| > 1 && s[0] == '+' then s[1..] else s;
    if digits == [] || !AllDigits(digits) || ValueOf(digits) >= USIZE_LIMIT then None
    else Some(ValueOf(digits))
  }

  // ---------- names ----------

  function LevelName(level: nat, timestamp: nat): Name {
    "l" + Decimal(level) + "_" + Decimal(timestamp) + ".sst"
  }

  predicate EndsWith(s: string, suffix: string) {
    |suffix| <= |s| && s[|s| - |suffix|..] == suffix
  }

  /** `split('_').next()`: everything before the first underscore. */
  function BeforeUnderscore(s: string): string {
    if s == [] || s[0] == '_' then [] else [s[0]] + BeforeUnderscore(s[1..])
  }

  /** The level a directory scan files a name under; none when the scan skips it. */
  function LevelOf(name: Name): Option<nat> {
    if !EndsWith(name, ".sst") then None
    else if name[0] != 'l' then None
    else ParseUsize(BeforeUnderscore(name[1..]))
  }

  /** Everything before the last dot that is not the first character: `file_stem`. */
  function Stem(name: Name): Name
    decreases |name|
  {
    StemBefore(name, |name|)
  }

  function StemBefore(name: Name, i: nat): Name
    requires i <= |name|
  {
    if i <= 1 then name else if name[i - 1] == '.' then name[..i - 1] else StemBefore(name, i - 1)
  }

  /** `with_extension("tmp")`. */
  function TmpName(name: Name): Name {
    Stem(name) + ".tmp"
  }

  /** The order of paths in one directory. */
  predicate NameLess(a: Name, b: Name) {
    b != [] && (a == [] || a[0] < b[0] || (a[0] == b[0] && NameLess(a[1..], b[1..])))
  }

  // ---------- facts about decimals ----------

  /** Decimal notation: digits that spell the number, without leading zeros. */
  lemma {:induction false} DecimalIsDigits(n: nat)
    ensures AllDigits(Decimal(n)) && ValueOf(Decimal(n)) == n
    ensures n > 0 ==> Decimal(n)[0] != '0'
  {
    if n >= 10 {
      DecimalIsDigits(n / 10);
      assert Decimal(n)[..|Decimal(n)| - 1] == Decimal(n / 10);
    } else {
      assert Decimal(n)[..0] == [];
    }
  }

  lemma DecimalInjective(a: nat, b: nat)
    requires Decimal(a) == Decimal(b)
    ensures a == b
  {
    DecimalIsDigits(a);
    DecimalIsDigits(b);
  }

  lemma {:induction false} LessConcat(a: string, b: string, x: string, y: string)
    requires |a| == |b|
    ensures NameLess(a + x, b + y) <==> NameLess(a, b) || (a == b && NameLess(x, y))
  {
    if a == [] {
      assert a + x == x && b + y == y;
    } else {
      assert (a + x)[1..] == a[1..] + x && (b + y)[1..] == b[1..] + y;
      LessConcat(a[1..], b[1..], x, y);
      assert a == [a[0]] + a[1..] && b == [b[0]] + b[1..];
    }
  }

  lemma {:induction false} NameLessIrreflexive(a: Name)
    ensures !NameLess(a, a)
  {
    if a != [] {
      NameLessIrreflexive(a[1..]);
    }
  }

  lemma {:induction false} NameLessTransitive(a: Name, b: Name, c: Name)
    requires NameLess(a, b) && NameLess(b, c)
    ensures NameLess(a, c)
  {
    if a != [] && a[0] == b[0] && b[0] == c[0] {
      NameLessTransitive(a[1..], b[1..], c[1..]);
    }
  }

  lemma {:induction false} NameLessConnected(a: Name, b: Name)
    ensures NameLess(a, b) || a == b || NameLess(b, a)
  {
    if a != [] && b != [] && a[0] == b[0] {
      NameLessConnected(a[1..], b[1..]);
      if a[1..] == b[1..] {
        assert a == [a[0]] + a[1..];
        assert b == [b[0]] + b[1..];
      }
    }
  }

  /** Numbers of equal printed width sort as strings the way they sort as numbers. */
  lemma {:induction false} DecimalOrder(a: nat, b: nat)
    requires |Decimal(a)| == |Decimal(b)| && a < b
    ensures NameLess(Decimal(a), Decimal(b))
  {
    if a < 10 {
      assert b < 10;
    } else {
      assert b >= 10;
      var p, q := [Digit(a % 10)], [Digit(b % 10)];
      LessConcat(Decimal(a / 10), Decimal(b / 10), p, q);
      if a / 10 < b / 10 {
        DecimalOrder(a / 10, b / 10);
      } else {
        assert a / 10 == b / 10 && a % 10 < b % 10;
        assert p[0] < q[0];
      }
    }
  }

  // ---------- facts about names ----------

  lemma LevelNameInjective(level: nat, a: nat, b: nat)
    requires LevelName(level, a) == LevelName(level, b)
    ensures a == b
  {
    var n := |Decimal(level)| + 2;
    assert LevelName(level, a)[n..|LevelName(level, a)| - 4] == Decimal(a);
    assert LevelName(level, b)[n..|LevelName(level, b)| - 4] == Decimal(b);
    DecimalInjective(a, b);
  }

  lemma {:induction false} NoUnderscoreBefore(part: string, rest: string)
    requires '_' !in part
    ensures BeforeUnderscore(part + "_" + rest) == part
  {
    if part == [] {
      assert part + "_" + rest == "_" + rest;
    } else {
      assert (part + "_" + rest)[1..] == part[1..] + "_" + rest;
      NoUnderscoreBefore(part[1..], rest);
    }
  }

  lemma {:induction false} BeforeUnderscoreIsPrefix(s: string)
    ensures var part := BeforeUnderscore(s);
            |part| <= |s| && s[..|part|] == part && '_' !in part && (|part| < |s| ==> s[|part|] == '_')
  {
    if s != [] && s[0] != '_' {
      BeforeUnderscoreIsPrefix(s[1..]);
      var part := BeforeUnderscore(s[1..]);
      assert s[..|part| + 1] == [s[0]] + s[1..][..|part|];
    }
  }

  /** The shape of the names the scan files: an `l`, the level in digits after an optional plus sign, an underscore,
      and anything before the extension. */
  predicate NamesLevel(name: Name, level: nat, plus: string, digits: string, rest: string) {
    && (plus == "" || plus == "+") && digits != [] && AllDigits(digits) && ValueOf(digits) == level
    && level < 0x1_0000_0000_0000_0000 && name == "l" + plus + digits + "_" + rest + ".sst"
  }

  /** The scan files a name under a level exactly if it has that shape. */
  lemma LevelOfIff(name: Name, level: nat)
    ensures LevelOf(name) == Some(level) <==> exists plus, digits, rest :: NamesLevel(name, level, plus, digits, rest)
  {
    if LevelOf(name) == Some(level) {
      FiledHasShape(name, level);
    }
    if plus, digits, rest :| NamesLevel(name, level, plus, digits, rest) {
      ShapeIsFiled(name, level, plus, digits, rest);
    }
  }

  lemma ShapeIsFiled(name: Name, level: nat, plus: string, digits: string, rest: string)
    requires NamesLevel(name, level, plus, digits, rest)
    ensures LevelOf(name) == Some(level)
  {
    hide ValueOf;
    var part := plus + digits;
    assert name[|name| - 4..] == ".sst";
    assert name[1..] == part + "_" + (rest + ".sst");
    NoUnderscoreBefore(part, rest + ".sst");
    if plus == "+" {
      assert part[1..] == digits;
    } else {
      assert part == digits && IsDigit(digits[0]);
    }
  }

  lemma LevelOfLevelName(level: nat, timestamp: nat)
    requires level < USIZE_LIMIT
    ensures LevelOf(LevelName(level, timestamp)) == Some(level)
  {
    DecimalIsDigits(level);
    ShapeIsFiled(LevelName(level, timestamp), level, "", Decimal(level), Decimal(timestamp));
  }

  lemma FiledHasShape(name: Name, level: nat)
    requires LevelOf(name) == Some(level)
    ensures exists plus, digits, rest :: NamesLevel(name, level, plus, digits, rest)
  {
    assert |name| >= 4 && EndsWith(name, ".sst");
    hide ValueOf, EndsWith, BeforeUnderscore, ParseUsize;
    var plus, digits := ParsedParts(BeforeUnderscore(name[1..]), level);
    var rest := NameParts(name, plus, digits);
    hide LevelOf;
    assert NamesLevel(name, level, plus, digits, rest);
  }

  lemma ParsedParts(part: string, level: nat) returns (plus: string, digits: string)
    requires ParseUsize(part) == Some(level)
    ensures (plus == "" || plus == "+") && digits != [] && AllDigits(digits) && ValueOf(digits) == level
    ensures part == plus + digits && level < USIZE_LIMIT && IsDigit(digits[|digits| - 1])
  {
    hide ValueOf;
    var signed := |part| > 1 && part[0] == '+';
    plus, digits := if signed then "+" else "", if signed then part[1..] else part;
  }

  /** A name that ends in the extension, and whose part before the first underscore ends in a digit. */
  lemma NameParts(name: Name, plus: string, digits: string) returns (rest: string)
    requires EndsWith(name, ".sst") && name[0] == 'l'
    requires BeforeUnderscore(name[1..]) == plus + digits && digits != [] && IsDigit(digits[|digits| - 1])
    ensures name == "l" + plus + digits + "_" + rest + ".sst"
  {
    assert |name| >= 4;
    hide EndsWith, BeforeUnderscore;
    var part := plus + digits;
    var k := 1 + |part|;
    BeforeUnderscoreIsPrefix(name[1..]);
    ExtensionEnds(name);
    assert name[k - 1] == part[|part| - 1];
    assert k < |name| && name[k] == name[1..][|part|] == '_';
    rest := name[k + 1..|name| - 4];
    assert name[1..k] == part;
    JoinParts(name, k, plus, digits);
  }

  lemma JoinParts(name: Name, k: nat, plus: string, digits: string)
    requires 1 <= k < |name| - 4 && name[0] == 'l' && name[1..k] == plus + digits && name[k] == '_'
    requires name[|name| - 4..] == ".sst"
    ensures name == "l" + plus + digits + "_" + name[k + 1..|name| - 4] + ".sst"
  {
    assert name == name[..1] + name[1..k] + name[k..k + 1] + name[k + 1..|name| - 4] + name[|name| - 4..];
  }

  lemma ExtensionEnds(name: Name)
    requires EndsWith(name, ".sst")
    ensures |name| >= 4 && name[|name| - 4..] == ".sst"
    ensures forall j | |name| - 4 <= j < |name| :: name[j] != '_' && !IsDigit(name[j])
  {
    var n := |name| - 4;
    assert forall j | n <= j < |name| :: name[j] == name[n..][j - n];
  }

  /** The temporary name of a level file: the same name with another extension. */
  lemma TmpOfLevelName(level: nat, timestamp: nat)
    ensures TmpName(LevelName(level, timestamp)) == "l" + Decimal(level) + "_" + Decimal(timestamp) + ".tmp"
  {
    hide Decimal;
    var name := LevelName(level, timestamp);
    var n := |name| - 3;
    assert name[n - 1] == '.' && name[n] == 's' && name[n + 1] == 's' && name[n + 2] == 't';
    assert StemBefore(name, n) == name[..n - 1];
    assert StemBefore(name, n + 1) == StemBefore(name, n);
    assert StemBefore(name, n + 2) == StemBefore(name, n);
    assert StemBefore(name, n + 3) == StemBefore(name, n);
  }

  /** Different level files are written under different temporary names. */
  lemma TmpNamesDiffer(level: nat, a: nat, b: nat)
    requires a != b
    ensures TmpName(LevelName(level, a)) != TmpName(LevelName(level, b))
  {
    hide Decimal;
    TmpOfLevelName(level, a);
    TmpOfLevelName(level, b);
    var x, y, n := TmpName(LevelName(level, a)), TmpName(LevelName(level, b)), |Decimal(level)| + 2;
    assert x[n..|x| - 4] == Decimal(a);
    assert y[n..|y| - 4] == Decimal(b);
    if x == y {
      DecimalInjective(a, b);
    }
  }

  /** `n` is the length of what the two names have in common, and there `a` ends or has the smaller character. */
  predicate NamesPartAt(a: Name, b: Name, n: nat) {
    n <= |a| && n < |b| && a[..n] == b[..n] && (n == |a| || a[n] < b[n])
  }

  /** `NameLess` is the lexicographic order. */
  lemma {:induction false} NameLessIsLexicographic(a: Name, b: Name)
    ensures NameLess(a, b) <==> exists n: nat :: NamesPartAt(a, b, n)
  {
    if a == [] {
      assert b != [] ==> NamesPartAt(a, b, 0);
    } else if b != [] && a[0] == b[0] {
      NameLessIsLexicographic(a[1..], b[1..]);
      if n: nat :| NamesPartAt(a[1..], b[1..], n) {
        assert a[..n + 1] == [a[0]] + a[1..][..n] && b[..n + 1] == [b[0]] + b[1..][..n];
        assert NamesPartAt(a, b, n + 1);
      }
      if n: nat :| NamesPartAt(a, b, n) {
        assert a[1..][..n - 1] == a[..n][1..] && b[1..][..n - 1] == b[..n][1..];
        assert NamesPartAt(a[1..], b[1..], n - 1);
      }
    } else if b != [] {
      assert NamesPartAt(a, b, 0) <==> a[0] < b[0];
      assert forall n: nat | NamesPartAt(a, b, n) && n > 0 :: a[..n][0] == b[..n][0];
    }
  }

  /** The number `n` without its last `drop` decimal digits. */
  function Leading(n: nat, drop: nat): nat {
    if drop == 0 then n else Leading(n / 10, drop - 1)
  }

  lemma {:induction false} WidthGrows(a: nat, b: nat)
    requires a <= b
    ensures |Decimal(a)| <= |Decimal(b)|
  {
    if b >= 10 && a >= 10 {
      WidthGrows(a / 10, b / 10);
    }
  }

  /** The printed digits of `b` are those of its leading part and then some more digits. */
  lemma {:induction false} LeadingDigits(b: nat, drop: nat)
    requires drop < |Decimal(b)|
    ensures |Decimal(Leading(b, drop))| == |Decimal(b)| - drop
    ensures Decimal(Leading(b, drop)) == Decimal(b)[..|Decimal(b)| - drop]
  {
    if drop > 0 {
      LeadingDigits(b / 10, drop - 1);
      assert Decimal(b)[..|Decimal(b)| - 1] == Decimal(b / 10);
    } else {
      assert Decimal(b)[..|Decimal(b)|] == Decimal(b);
    }
  }

  lemma LevelNameTail(level: nat, a: nat, b: nat)
    ensures NameLess(LevelName(level, a), LevelName(level, b)) <==>
            NameLess(Decimal(a) + ".sst", Decimal(b) + ".sst")
  {
    hide Decimal;
    var head := "l" + Decimal(level) + "_";
    NameLessIrreflexive(head);
    LessConcat(head, head, Decimal(a) + ".sst", Decimal(b) + ".sst");
    assert LevelName(level, a) == head + (Decimal(a) + ".sst");
    assert LevelName(level, b) == head + (Decimal(b) + ".sst");
  }

  /** What follows the shorter timestamp sorts before what follows the leading digits of the longer. */
  lemma ExtensionSortsFirst(b: nat, drop: nat)
    requires drop < |Decimal(b)|
    ensures var rest := Decimal(b)[|Decimal(b)| - drop..] + ".sst";
            Decimal(Leading(b, drop)) + rest == Decimal(b) + ".sst" && (NameLess(".sst", rest) <==> drop > 0)
  {
    LeadingDigits(b, drop);
    DecimalIsDigits(b);
    NameLessIrreflexive(".sst");
    var digits := Decimal(b)[|Decimal(b)| - drop..];
    assert Decimal(b) == Decimal(b)[..|Decimal(b)| - drop] + digits;
    if drop > 0 {
      assert IsDigit(digits[0]);
    } else {
      assert digits + ".sst" == ".sst";
    }
  }

  /** When a file name written earlier sorts before one written later: exactly when the earlier timestamp is
      at most the leading digits, as many as it has itself, of the later one. */
  lemma {:induction false} LevelNameOrderIff(level: nat, a: nat, b: nat)
    requires a < b
    ensures |Decimal(a)| <= |Decimal(b)|
    ensures NameLess(LevelName(level, a), LevelName(level, b)) <==>
            a <= Leading(b, |Decimal(b)| - |Decimal(a)|)
  {
    WidthGrows(a, b);
    var drop := |Decimal(b)| - |Decimal(a)|;
    var lead := Leading(b, drop);
    var rest := Decimal(b)[|Decimal(b)| - drop..] + ".sst";
    LevelNameTail(level, a, b);
    LeadingDigits(b, drop);
    ExtensionSortsFirst(b, drop);
    LessConcat(Decimal(a), Decimal(lead), ".sst", rest);
    DecimalOrderIff(a, lead);
    assert drop == 0 ==> lead == b;
  }

  lemma DecimalOrderIff(a: nat, b: nat)
    requires |Decimal(a)| == |Decimal(b)|
    ensures NameLess(Decimal(a), Decimal(b)) <==> a < b
    ensures Decimal(a) == Decimal(b) <==> a == b
  {
    NameLessIrreflexive(Decimal(a));
    if a < b {
      DecimalOrder(a, b);
    } else if b < a {
      DecimalOrder(b, a);
      if NameLess(Decimal(a), Decimal(b)) {
        NameLessTransitive(Decimal(a), Decimal(b), Decimal(a));
      }
    }
    if Decimal(a) == Decimal(b) {
      DecimalInjective(a, b);
    }
  }

  /** While timestamps print with equally many digits, names sort by time. */
  lemma LevelNameOrder(level: nat, a: nat, b: nat)
    requires |Decimal(a)| == |Decimal(b)| && a < b
    ensures NameLess(LevelName(level, a), LevelName(level, b))
  {
    LevelNameOrderIff(level, a, b);
  }

  /** With different widths the two orders may agree or not. */
  lemma WidthMatters()
    ensures !NameLess(LevelName(0, 9), LevelName(0, 10)) && NameLess(LevelName(0, 1), LevelName(0, 10))
  {
    assert |Decimal(10)| == 2 && |Decimal(9)| == 1 && |Decimal(1)| == 1;
    assert Leading(10, 1) == Leading(1, 0) == 1;
    LevelNameOrderIff(0, 9, 10);
    LevelNameOrderIff(0, 1, 10);
  }

  /** A scan skips temporary files and the log. */
  lemma TmpAndWalAreSkipped(name: Name)
    ensures LevelOf(TmpName(name)).None? && LevelOf(WAL_NAME).None?
    ensures TmpName(name) != WAL_NAME && WAL_NAME == "wal.log"
  {
    var tmp := TmpName(name);
    assert tmp[|tmp| - 4..] == ".tmp";
    assert WAL_NAME[|WAL_NAME| - 4..] == ".log";
    assert ".tmp"[1] == 't' && ".sst"[1] == 's' && ".log"[1] == 'l';
  }
}

/** The directory of one store. */
module Storage {
  import opened Bytes
  import opened Names

  type Directory = map<Name, Bytes>

  class Disk {
    var files: Directory

    constructor ()
      ensures files == map[]
    {
      files := map[];
    }
  }
}
