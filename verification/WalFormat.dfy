/** The write-ahead log as bytes: entry encoding, decoding, and replay of a whole log. */
module WalFormat {
  import opened Wrappers
  import opened Bytes
  import Crc32
  import CrcDivision

  datatype WalEntry = Put(key: Bytes, value: Bytes) | Delete(key: Bytes)
  {
    /** Lengths survive the cast to `u32`. */
    predicate Fits() {
      |key| < Pow256(4) && (Put? ==> |value| < Pow256(4))
    }
  }

  datatype WalError = Error | Checksum

  /** Everything the checksum covers: operation, lengths, key and value. */
  function Body(entry: WalEntry): Bytes {
    match entry
    case Put(key, value) => [0] + ToLe(|key|, 4) + key + ToLe(|value|, 4) + value
    case Delete(key) => [1] + ToLe(|key|, 4) + key
  }

  /** The checksum as the number the last four bytes of an entry spell. */
  function Sum(body: Bytes): nat {
    Crc32.Crc(body) as nat
  }

  function Seal(body: Bytes): Bytes {
    ToLe(Sum(body), 4)
  }

  function Encoding(entry: WalEntry): Bytes {
    Body(entry) + Seal(Body(entry))
  }

  function EncodeAll(entries: seq<WalEntry>): Bytes {
    if entries == [] then [] else Encoding(entries[0]) + EncodeAll(entries[1..])
  }

  /** `WalEntry::encode`: fills one buffer piece by piece. */
  method Encode(entry: WalEntry) returns (code: Bytes)
    ensures code == Encoding(entry)
  {
    hide Crc32.Crc, ToLe;
    code := [];
    match entry {
      case Put(key, value) =>
        code := code + [0];
        code := code + ToLe(|key|, 4);
        code := code + key;
        code := code + ToLe(|value|, 4);
        code := code + value;
      case Delete(key) =>
        code := code + [1];
        code := code + ToLe(|key|, 4);
        code := code + key;
    }
    assert code == Body(entry);
    var checksum := Crc32.ComputeCrc(code);
    code := code + ToLe(checksum as nat, 4);
  }

  /** The operation, lengths, key and value at the front of `code`, and where they end. */
  function ParseBody(code: Bytes): (r: Result<(WalEntry, nat), WalError>)
    ensures r.Ok? ==> 5 <= r.value.1 <= |code|
  {
    if code == [] then Err(Error)
    else if code[0] == 0 then
      if |code| < 5 then Err(Error) else
      var valLenStart := 5 + FromLe(code[1..5]);
      if |code| < valLenStart + 4 then Err(Error) else
      var valStart := valLenStart + 4;
      var bodyLen := valStart + FromLe(code[valLenStart..valStart]);
      if |code| < bodyLen then Err(Error) else
      Ok((Put(code[5..valLenStart], code[valStart..bodyLen]), bodyLen))
    else if code[0] == 1 then
      if |code| < 5 then Err(Error) else
      var bodyLen := 5 + FromLe(code[1..5]);
      if |code| < bodyLen then Err(Error) else
      Ok((Delete(code[5..bodyLen]), bodyLen))
    else Err(Error)
  }

  /** `WalEntry::decode`: the first entry of `code` and the number of bytes it takes. */
  function Decode(code: Bytes): (r: Result<(WalEntry, nat), WalError>)
    ensures r.Ok? ==> 9 <= r.value.1 <= |code|
  {
    hide ParseBody, FromLe, Sum;
    match ParseBody(code)
    case Err(e) => Err(e)
    case Ok((entry, bodyLen)) =>
      if |code| < bodyLen + 4 then Err(Error)
      else if Sum(code[..bodyLen]) != FromLe(code[bodyLen..bodyLen + 4]) then Err(Checksum)
      else Ok((entry, bodyLen + 4))
  }

  // ---------- decode accepts exactly the image of encode ----------

  lemma ParseBodyOfBody(entry: WalEntry, rest: Bytes)
    requires entry.Fits()
    ensures ParseBody(Body(entry) + rest) == Ok((entry, |Body(entry)|))
  {
    hide FromLe, ToLe, Pow256;
    var code := Body(entry) + rest;
    FromLeToLe(|entry.key|, 4);
    assert code[1..5] == ToLe(|entry.key|, 4);
    assert code[5..5 + |entry.key|] == entry.key;
    if entry.Put? {
      var start := 5 + |entry.key|;
      FromLeToLe(|entry.value|, 4);
      assert code[start..start + 4] == ToLe(|entry.value|, 4);
      assert code[start + 4..start + 4 + |entry.value|] == entry.value;
    }
  }

  lemma BodyOfParseBody(code: Bytes)
    requires ParseBody(code).Ok?
    ensures var (entry, n) := ParseBody(code).value;
            5 <= n <= |code| && code[..n] == Body(entry) && entry.Fits()
  {
    hide FromLe, ToLe, Pow256;
    var (entry, n) := ParseBody(code).value;
    ToLeFromLe(code[1..5]);
    if entry.Put? {
      var start := 5 + |entry.key|;
      ToLeFromLe(code[start..start + 4]);
      assert code[..n] == [0] + code[1..5] + code[5..start] + code[start..start + 4] + code[start + 4..n];
    } else {
      assert code[..n] == [1] + code[1..5] + code[5..n];
    }
  }

  lemma SealIsLe(body: Bytes)
    ensures FromLe(Seal(body)) == Crc32.Crc(body) as nat
  {
    hide FromLe, ToLe, Crc32.Crc;
    assert Pow256(4) == 0x1_0000_0000;
    FromLeToLe(Crc32.Crc(body) as nat, 4);
  }

  lemma DecodeOfEncoding(entry: WalEntry, rest: Bytes)
    requires entry.Fits()
    ensures Decode(Encoding(entry) + rest) == Ok((entry, |Encoding(entry)|))
  {
    hide FromLe, ToLe, Crc32.Crc, ParseBody, Seal;
    var body, code := Body(entry), Encoding(entry) + rest;
    ParseBodyOfBody(entry, Seal(body) + rest);
    assert code == body + (Seal(body) + rest);
    SealIsLe(body);
    assert code[..|body|] == body;
    assert |Seal(body)| == 4 by { SealLength(body); }
    assert code[|body|..|body| + 4] == Seal(body);
  }

  lemma SealLength(body: Bytes)
    ensures |Seal(body)| == 4
  {
  }

  lemma EncodingOfDecode(code: Bytes)
    requires Decode(code).Ok?
    ensures var (entry, n) := Decode(code).value;
            n <= |code| && code[..n] == Encoding(entry) && entry.Fits()
  {
    hide FromLe, ToLe, Crc32.Crc, ParseBody, Body;
    BodyOfParseBody(code);
    var (entry, n) := ParseBody(code).value;
    ToLeFromLe(code[n..n + 4]);
    assert Seal(code[..n]) == code[n..n + 4];
    assert code[..n + 4] == code[..n] + code[n..n + 4];
  }

  /** The declared shape of the entry that starts `code`, when enough of it is there to tell. */
  lemma ParseBodyPrefix(code: Bytes, cut: nat)
    requires ParseBody(code).Ok? && cut < ParseBody(code).value.1
    ensures ParseBody(code[..cut]) == Err(Error)
  {
    hide FromLe;
    var n := ParseBody(code).value.1;
    var part := code[..cut];
    if cut >= 5 {
      assert part[1..5] == code[1..5];
      var start := 5 + FromLe(code[1..5]);
      if code[0] == 0 && cut >= start + 4 {
        assert part[start..start + 4] == code[start..start + 4];
      }
    }
  }

  lemma ParseBodyExtends(code: Bytes, cut: nat)
    requires ParseBody(code).Ok? && ParseBody(code).value.1 <= cut <= |code|
    ensures ParseBody(code[..cut]) == ParseBody(code)
  {
    hide FromLe, ToLe, Body;
    var (entry, n) := ParseBody(code).value;
    BodyOfParseBody(code);
    ParseBodyOfBody(entry, code[n..cut]);
    assert code[..cut] == code[..n] + code[n..cut];
  }

  /** A log cut inside an entry reads as a short read, never as an entry or a bad checksum. */
  lemma StrictPrefixIsError(entry: WalEntry, cut: nat)
    requires entry.Fits() && cut < |Encoding(entry)|
    ensures Decode(Encoding(entry)[..cut]) == Err(Error)
  {
    hide FromLe, ToLe, Crc32.Crc, ParseBody, Body, Seal;
    var body, code := Body(entry), Encoding(entry);
    SealLength(body);
    ParseBodyOfBody(entry, Seal(body));
    if cut < |body| {
      ParseBodyPrefix(code, cut);
    } else {
      ParseBodyExtends(code, cut);
    }
  }

  /** Where the fields of an entry are. */
  lemma EncodingLayout(entry: WalEntry)
    requires entry.Fits()
    ensures var code, k := Encoding(entry), |entry.key|;
            && |code| == (if entry.Put? then 13 + k + |entry.value| else 9 + k)
            && code[0] == (if entry.Put? then 0 else 1)
            && FromLe(code[1..5]) == k && code[5..5 + k] == entry.key
            && (entry.Put? ==> FromLe(code[5 + k..9 + k]) == |entry.value| && code[9 + k..|code| - 4] == entry.value)
            && FromLe(code[|code| - 4..]) == Crc32.Crc(code[..|code| - 4]) as nat
  {
    hide FromLe, ToLe, Pow256, Crc32.Crc, Seal;
    var code, body, k := Encoding(entry), Body(entry), |entry.key|;
    SealLength(body);
    SealIsLe(body);
    assert code[..|code| - 4] == body && code[|code| - 4..] == Seal(body);
    FromLeToLe(k, 4);
    assert code[1..5] == ToLe(k, 4);
    assert code[5..5 + k] == entry.key;
    if entry.Put? {
      FromLeToLe(|entry.value|, 4);
      assert code[5 + k..9 + k] == ToLe(|entry.value|, 4);
      assert code[9 + k..|code| - 4] == entry.value;
    }
  }

  /** An encoded entry, its checksum included, always leaves the residue of CRC-32. */
  lemma EncodingLeavesResidue(entry: WalEntry)
    ensures Crc32.Run(0xFFFFFFFF, Encoding(entry)) == 0xDEBB20E3
  {
    hide ToLe, Crc32.Run, Crc32.Crc, Body;
    CrcDivision.Residue(Body(entry));
  }

  // ---------- corruption ----------

  lemma DecodeMismatch(entry: WalEntry, seal: Bytes, rest: Bytes)
    requires entry.Fits() && |seal| == 4 && seal != Seal(Body(entry))
    ensures Decode(Body(entry) + seal + rest) == Err(Checksum)
  {
    hide FromLe, ToLe, Crc32.Crc, ParseBody, Body;
    var body := Body(entry);
    var code := body + seal + rest;
    assert code == body + (seal + rest);
    ParseBodyOfBody(entry, seal + rest);
    assert code[..|body|] == body && code[|body|..|body| + 4] == seal;
    ToLeFromLe(seal);
  }

  /** A checksum error is reported exactly for a whole body followed by four bytes that are not its checksum. */
  lemma ChecksumErrorIff(code: Bytes)
    ensures Decode(code) == Err(Checksum) <==>
            exists entry: WalEntry, seal: Bytes, rest: Bytes ::
              && entry.Fits() && |seal| == 4 && code == Body(entry) + seal + rest && seal != Seal(Body(entry))
  {
    hide FromLe, ToLe, Crc32.Crc, ParseBody, Body, Seal, Pow256, Decode;
    if entry: WalEntry, seal: Bytes, rest: Bytes :|
      entry.Fits() && |seal| == 4 && code == Body(entry) + seal + rest && seal != Seal(Body(entry)) {
      DecodeMismatch(entry, seal, rest);
    }
    if Decode(code) == Err(Checksum) {
      var entry, n := MismatchParts(code);
      assert code == Body(entry) + code[n..n + 4] + code[n + 4..];
    }
  }

  lemma MismatchParts(code: Bytes) returns (entry: WalEntry, n: nat)
    requires Decode(code) == Err(Checksum)
    ensures entry.Fits() && n + 4 <= |code| && code[..n] == Body(entry) && code[n..n + 4] != Seal(Body(entry))
  {
    hide FromLe, ToLe, Crc32.Crc, Body, Seal, Pow256;
    ErrorsOfBody(code);
    hide ParseBody;
    BodyOfParseBody(code);
    entry, n := ParseBody(code).value.0, ParseBody(code).value.1;
    SealIsLe(code[..n]);
  }

  lemma ErrorsOfBody(code: Bytes)
    ensures ParseBody(code).Err? ==> ParseBody(code).error == Error
  {
    hide FromLe;
  }

  lemma SealInjective(a: Bytes, b: Bytes)
    requires Seal(a) == Seal(b)
    ensures Crc32.Crc(a) == Crc32.Crc(b)
  {
    hide FromLe, ToLe, Crc32.Crc, Seal;
    SealIsLe(a);
    SealIsLe(b);
    AsNatInjective(Crc32.Crc(a), Crc32.Crc(b));
  }

  lemma AsNatInjective(a: bv32, b: bv32)
    requires a as nat == b as nat
    ensures a == b
  {
    assert (a as nat) as bv32 == a && (b as nat) as bv32 == b;
  }

  /** Positions of the key and of the value inside the encoding. */
  function KeyStart(entry: WalEntry): nat { 5 }
  function KeyEnd(entry: WalEntry): nat { 5 + |entry.key| }
  function ValueStart(entry: WalEntry): nat { if entry.Put? then KeyEnd(entry) + 4 else KeyEnd(entry) }
  function ValueEnd(entry: WalEntry): nat { |Body(entry)| }

  /** `code` is `original` with the bytes of [at, at + |patch|) replaced by `patch`. */
  function Patched(original: Bytes, at: nat, patch: Bytes): Bytes
    requires at + |patch| <= |original|
  {
    original[..at] + patch + original[at + |patch|..]
  }

  function PatchedKey(entry: WalEntry, at: nat, patch: Bytes): WalEntry
    requires 5 <= at && at + |patch| <= KeyEnd(entry)
  {
    match entry
    case Put(key, value) => Put(Patched(key, at - 5, patch), value)
    case Delete(key) => Delete(Patched(key, at - 5, patch))
  }

  function PatchedValue(entry: WalEntry, at: nat, patch: Bytes): WalEntry
    requires entry.Put? && ValueStart(entry) <= at && at + |patch| <= ValueEnd(entry)
  {
    Put(entry.key, Patched(entry.value, at - ValueStart(entry), patch))
  }

  lemma PatchedInside(head: Bytes, middle: Bytes, tail: Bytes, at: nat, patch: Bytes)
    requires |head| <= at && at + |patch| <= |head| + |middle|
    ensures Patched(head + middle + tail, at, patch) == head + Patched(middle, at - |head|, patch) + tail
    ensures (head + middle + tail)[at..at + |patch|] == middle[at - |head|..at - |head| + |patch|]
  {
    var all, i, n := head + middle + tail, at - |head|, |patch|;
    assert all[..at] == head + middle[..i];
    assert all[at + n..] == middle[i + n..] + tail;
  }

  lemma PatchedKeyBody(entry: WalEntry, at: nat, patch: Bytes)
    requires 5 <= at && at + |patch| <= KeyEnd(entry)
    ensures PatchedKey(entry, at, patch).Fits() == entry.Fits()
    ensures Body(PatchedKey(entry, at, patch)) == Patched(Body(entry), at, patch)
  {
    hide ToLe, Pow256, Body, Patched;
    var other := PatchedKey(entry, at, patch);
    PatchedLength(entry.key, at - 5, patch);
    BodyAroundKey(entry);
    BodyAroundKey(other);
    PatchedInside(BeforeKey(entry), entry.key, AfterKey(entry), at, patch);
  }

  function BeforeKey(entry: WalEntry): Bytes {
    [if entry.Put? then 0 else 1] + ToLe(|entry.key|, 4)
  }

  function AfterKey(entry: WalEntry): Bytes {
    if entry.Put? then ToLe(|entry.value|, 4) + entry.value else []
  }

  lemma BodyAroundKey(entry: WalEntry)
    ensures |BeforeKey(entry)| == 5
    ensures Body(entry) == BeforeKey(entry) + entry.key + AfterKey(entry)
  {
    hide ToLe;
  }

  lemma PatchedValueBody(entry: WalEntry, at: nat, patch: Bytes)
    requires entry.Put? && ValueStart(entry) <= at && at + |patch| <= ValueEnd(entry)
    ensures PatchedValue(entry, at, patch).Fits() == entry.Fits()
    ensures Body(PatchedValue(entry, at, patch)) == Patched(Body(entry), at, patch)
  {
    hide ToLe, Pow256;
    var head := [0] + ToLe(|entry.key|, 4) + entry.key + ToLe(|entry.value|, 4);
    assert Body(entry) == head + entry.value + [];
    var other := PatchedValue(entry, at, patch);
    assert Body(other) == head + other.value + [];
    PatchedInside(head, entry.value, [], at, patch);
  }

  /** A window that lies inside the key, inside the value, or inside the stored checksum. */
  predicate InOneField(entry: WalEntry, at: nat, n: nat) {
    || (KeyStart(entry) <= at && at + n <= KeyEnd(entry))
    || (entry.Put? && ValueStart(entry) <= at && at + n <= ValueEnd(entry))
    || (ValueEnd(entry) <= at && at + n <= |Encoding(entry)|)
  }

  /** Any real change confined to four consecutive bytes of one field is reported as a checksum error. */
  lemma {:induction false} BurstIsDetected(entry: WalEntry, at: nat, patch: Bytes, rest: Bytes)
    requires entry.Fits() && |patch| <= 4 && at + |patch| <= |Encoding(entry)|
    requires InOneField(entry, at, |patch|)
    requires patch != Encoding(entry)[at..at + |patch|]
    ensures Decode(Patched(Encoding(entry), at, patch) + rest) == Err(Checksum)
  {
    hide Crc32.Crc, Body, Seal, Decode, Patched, Pow256;
    var body, seal := Body(entry), Seal(Body(entry));
    SealLength(body);
    BodyLength(entry);
    if |body| <= at {
      assert body + seal + [] == body + seal;
      PatchedInside(body, seal, [], at, patch);
      PatchedLength(seal, at - |body|, patch);
      DecodeMismatch(entry, Patched(seal, at - |body|, patch), rest);
      assert body + Patched(seal, at - |body|, patch) + [] == body + Patched(seal, at - |body|, patch);
    } else {
      PatchedInside([], body, seal, at, patch);
      assert [] + body + seal == body + seal;
      var other := PatchedEntry(entry, at, patch);
      BurstChangesSeal(body, at, patch);
      DecodeMismatch(other, seal, rest);
      assert [] + Body(other) + seal == Body(other) + seal;
    }
  }

  lemma PatchedLength(original: Bytes, at: nat, patch: Bytes)
    requires at + |patch| <= |original|
    ensures |Patched(original, at, patch)| == |original|
    ensures Patched(original, at, patch)[at..at + |patch|] == patch
  {
  }

  lemma BurstChangesSeal(body: Bytes, at: nat, patch: Bytes)
    requires at + |patch| <= |body| && |patch| <= 4 && patch != body[at..at + |patch|]
    ensures Seal(body) != Seal(Patched(body, at, patch))
  {
    hide Crc32.Crc, Seal;
    var n := |patch|;
    assert body == body[..at] + body[at..at + n] + body[at + n..];
    Crc32.BurstChangesCrc(body[..at], body[at..at + n], patch, body[at + n..]);
    if Seal(body) == Seal(Patched(body, at, patch)) {
      SealInjective(body, Patched(body, at, patch));
    }
  }

  /** The entry whose body is the patched body. */
  lemma PatchedEntry(entry: WalEntry, at: nat, patch: Bytes) returns (other: WalEntry)
    requires at + |patch| <= |Body(entry)| && 5 <= at
    requires at + |patch| <= KeyEnd(entry) || (entry.Put? && ValueStart(entry) <= at)
    ensures Body(other) == Patched(Body(entry), at, patch) && other.Fits() == entry.Fits()
  {
    hide Body, Patched, Pow256;
    if at + |patch| <= KeyEnd(entry) {
      PatchedKeyBody(entry, at, patch);
      other := PatchedKey(entry, at, patch);
    } else {
      PatchedValueBody(entry, at, patch);
      other := PatchedValue(entry, at, patch);
    }
  }

  lemma BodyLength(entry: WalEntry)
    ensures |Body(entry)| == if entry.Put? then 9 + |entry.key| + |entry.value| else 5 + |entry.key|
  {
  }

  // ---------- replay ----------

  /** What `Wal::replay` recovers: entries up to the first position that does not decode. */
  function Replayed(log: Bytes): seq<WalEntry>
    decreases |log|
  {
    if log == [] then [] else
    match Decode(log)
    case Err(_) => []
    case Ok((entry, consumed)) => [entry] + Replayed(log[consumed..])
  }

  method Replay(log: Bytes) returns (entries: seq<WalEntry>)
    ensures entries == Replayed(log)
  {
    hide Decode;
    entries := [];
    var cursor := 0;
    assert log[0..] == log;
    while cursor < |log|
      invariant cursor <= |log|
      invariant entries + Replayed(log[cursor..]) == Replayed(log)
    {
      match Decode(log[cursor..]) {
        case Ok((entry, consumed)) =>
          entries := entries + [entry];
          assert log[cursor..][consumed..] == log[cursor + consumed..];
          cursor := cursor + consumed;
        case Err(_) =>
          return;
      }
    }
  }

  predicate AllFit(entries: seq<WalEntry>) {
    forall i | 0 <= i < |entries| :: entries[i].Fits()
  }

  /** No entry starts at the front of `tail`. */
  predicate NoEntry(tail: Bytes) {
    tail == [] || Decode(tail).Err?
  }

  lemma {:induction false} ReplayOfEncodings(entries: seq<WalEntry>, tail: Bytes)
    requires AllFit(entries) && NoEntry(tail)
    ensures Replayed(EncodeAll(entries) + tail) == entries
  {
    hide Decode, Encoding;
    if entries == [] {
      assert EncodeAll(entries) + tail == tail;
    } else {
      var rest := EncodeAll(entries[1..]) + tail;
      var log := EncodeAll(entries) + tail;
      assert log == Encoding(entries[0]) + rest;
      DecodeOfEncoding(entries[0], rest);
      assert log[|Encoding(entries[0])|..] == rest;
      ReplayOfEncodings(entries[1..], tail);
    }
  }

  /** A crash in the middle of an append costs exactly the entry being appended. */
  lemma TornTailIsDropped(entries: seq<WalEntry>, torn: WalEntry, cut: nat)
    requires AllFit(entries) && torn.Fits() && cut < |Encoding(torn)|
    ensures Replayed(EncodeAll(entries) + Encoding(torn)[..cut]) == entries
  {
    hide Decode, Encoding, Replayed, EncodeAll;
    StrictPrefixIsError(torn, cut);
    ReplayOfEncodings(entries, Encoding(torn)[..cut]);
  }

  /** Replay of any bytes: the entries found re-encode to a prefix, and nothing decodes after it. */
  lemma {:induction false} ReplaySplitsTheLog(log: Bytes)
    ensures AllFit(Replayed(log))
    ensures EncodeAll(Replayed(log)) <= log
    ensures NoEntry(log[|EncodeAll(Replayed(log))|..])
    decreases |log|
  {
    hide Decode, Encoding;
    if log == [] || Decode(log).Err? {
      assert log[0..] == log;
    } else {
      var (entry, n) := Decode(log).value;
      var rest := log[n..];
      ReplaySplitsTheLog(rest);
      EncodingOfDecode(log);
      var prefix := EncodeAll(Replayed(rest));
      assert Replayed(log)[1..] == Replayed(rest);
      assert EncodeAll(Replayed(log)) == log[..n] + prefix;
      assert log == log[..n] + rest;
      assert log[n + |prefix|..] == rest[|prefix|..];
    }
  }

  /** Replay is maximal: any list of entries whose encodings start the log starts the replay. */
  lemma {:induction false} ReplayIsMaximal(log: Bytes, entries: seq<WalEntry>)
    requires AllFit(entries) && EncodeAll(entries) <= log
    ensures entries <= Replayed(log)
    decreases entries
  {
    hide Decode, Encoding;
    if entries != [] {
      var code := Encoding(entries[0]);
      var rest := log[|code|..];
      assert EncodeAll(entries) == code + EncodeAll(entries[1..]);
      assert log == code + rest;
      DecodeOfEncoding(entries[0], rest);
      ReplayIsMaximal(rest, entries[1..]);
      assert entries == [entries[0]] + entries[1..];
    }
  }

  lemma {:induction false} EncodeAllConcat(a: seq<WalEntry>, b: seq<WalEntry>)
    ensures EncodeAll(a + b) == EncodeAll(a) + EncodeAll(b)
  {
    hide Encoding;
    if a == [] {
      assert a + b == b;
    } else {
      assert (a + b)[1..] == a[1..] + b;
      EncodeAllConcat(a[1..], b);
    }
  }

  /** Every byte of the log belongs to an entry. */
  predicate Clean(log: Bytes) {
    log == EncodeAll(Replayed(log))
  }

  /** Appending to a clean log extends the replay by exactly the new entry. */
  lemma AppendToClean(log: Bytes, entry: WalEntry)
    requires Clean(log) && entry.Fits()
    ensures Clean(log + Encoding(entry))
    ensures Replayed(log + Encoding(entry)) == Replayed(log) + [entry]
  {
    hide Decode, Encoding, Replayed;
    var entries := Replayed(log);
    ReplaySplitsTheLog(log);
    EncodeAllConcat(entries, [entry]);
    EncodeAllOne(entry);
    assert log + Encoding(entry) == EncodeAll(entries + [entry]) + [];
    ReplayOfEncodings(entries + [entry], []);
  }

  /** The bytes behind the last entry that replay finds. */
  function Tail(log: Bytes): Bytes {
    ReplaySplitsTheLog(log);
    log[|EncodeAll(Replayed(log))|..]
  }

  function Tag(entry: WalEntry): Byte {
    if entry.Put? then 0 else 1
  }

  lemma EncodingStartsWithTag(entry: WalEntry)
    ensures |Encoding(entry)| > 0 && Encoding(entry)[0] == Tag(entry)
  {
    hide ToLe, Seal;
  }

  /** What replay finds next starts with its tag. */
  lemma NextReplayedTag(log: Bytes, entries: seq<WalEntry>, entry: WalEntry)
    requires Replayed(log) == entries + [entry]
    ensures |EncodeAll(entries)| < |log| && log[|EncodeAll(entries)|] == Tag(entry)
  {
    hide Decode, Encoding, Replayed, EncodeAll;
    ReplaySplitsTheLog(log);
    EncodeAllConcat(entries, [entry]);
    EncodeAllOne(entry);
    EncodingStartsWithTag(entry);
    assert EncodeAll(entries + [entry])[|EncodeAll(entries)|] == Tag(entry);
  }

  /** Behind a tail, an entry whose tag is not the first byte of the tail is not replayed. */
  lemma TailHidesOtherTag(log: Bytes, entry: WalEntry)
    requires Tail(log) != [] && Tail(log)[0] != Tag(entry)
    ensures Replayed(log + Encoding(entry)) != Replayed(log) + [entry]
  {
    hide Decode, Encoding, Replayed, EncodeAll;
    ReplaySplitsTheLog(log);
    assert (log + Encoding(entry))[|EncodeAll(Replayed(log))|] == Tail(log)[0];
    if Replayed(log + Encoding(entry)) == Replayed(log) + [entry] {
      NextReplayedTag(log + Encoding(entry), Replayed(log), entry);
    }
  }

  lemma EncodeAllOne(entry: WalEntry)
    ensures EncodeAll([entry]) == Encoding(entry)
  {
    hide Encoding;
    assert [entry][1..] == [];
  }

  /** The exact condition for appends to be recoverable: a log replays every entry that may be appended
      to it if and only if all its bytes belong to entries. */
  lemma CleanIffAppendsReplay(log: Bytes)
    ensures Clean(log) <==>
            forall entry: WalEntry | entry.Fits() :: Replayed(log + Encoding(entry)) == Replayed(log) + [entry]
  {
    hide Decode, Encoding, Replayed, EncodeAll;
    if Clean(log) {
      forall entry: WalEntry | entry.Fits() ensures Replayed(log + Encoding(entry)) == Replayed(log) + [entry] {
        AppendToClean(log, entry);
      }
    } else {
      ReplaySplitsTheLog(log);
      var entry := if Tail(log)[0] == 0 then Delete([]) else Put([], []);
      TailHidesOtherTag(log, entry);
      assert entry.Fits();
    }
  }

  /** A torn log: of the put of a long key only the tag and two bytes of the length are there. The put
      appended next is read as part of it. */
  lemma TornLogLosesAnAppend()
    ensures var torn: Bytes := [0, 0, 1];
            torn == Encoding(Put(seq(256, _ => 7), []))[..3] && Replayed(torn) == []
            && Replayed(torn + Encoding(Put([7], [8]))) == []
  {
    hide Seal;
    var torn: Bytes := [0, 0, 1];
    var long := Put(seq(256, _ => 7), []);
    assert ToLe(256, 4)[0] == 0 && ToLe(256, 4)[1] == 1;
    assert Encoding(long)[..3] == torn;
    var code := Encoding(Put([7], [8]));
    assert |code| == 15 && code[0] == 0 by {
      SealLength(Body(Put([7], [8])));
    }
    assert ToLe(1, 4)[0] == 1;
    var log := torn + code;
    assert FromLe(log[1..5]) >= 256 by {
      FromLeAtLeast(log[1..5]);
    }
  }

  lemma FromLeAtLeast(bytes: Bytes)
    requires |bytes| == 4
    ensures FromLe(bytes) >= 256 * bytes[1] as nat
  {
    assert FromLe(bytes[1..]) >= bytes[1..][0] as nat;
  }

  /** How much of an entry must be present for its declared length to be known. */
  function HeaderLength(entry: WalEntry): nat {
    if entry.Put? then 9 + |entry.key| else 5
  }

  /** What an unclean log swallows: once a torn entry's header is in the log, everything appended
      after it is hidden until the torn entry's declared length is reached. */
  lemma {:induction false} TornTailHidesLaterAppends(entries: seq<WalEntry>, torn: WalEntry, cut: nat, later: Bytes)
    requires AllFit(entries) && torn.Fits()
    requires HeaderLength(torn) <= cut && cut + |later| < |Encoding(torn)|
    ensures Replayed(EncodeAll(entries) + (Encoding(torn)[..cut] + later)) == entries
  {
    hide Decode, Encoding, Replayed, EncodeAll, FromLe, ToLe, Body, Seal;
    var tail := Encoding(torn)[..cut] + later;
    assert Decode(tail).Err? by {
      ShortEntryIsError(torn, cut, later);
    }
    ReplayOfEncodings(entries, tail);
  }

  /** The fields that declare the shape of an entry, where decoding looks for them. */
  lemma DeclaredShape(entry: WalEntry)
    requires entry.Fits()
    ensures var code := Encoding(entry);
            && |code| == (if entry.Put? then 13 + |entry.key| + |entry.value| else 9 + |entry.key|)
            && code[0] == Tag(entry) && FromLe(code[1..5]) == |entry.key|
            && (entry.Put? ==> FromLe(code[5 + |entry.key|..9 + |entry.key|]) == |entry.value|)
  {
    hide FromLe, ToLe, Pow256, Seal;
    var code := Encoding(entry);
    SealLength(Body(entry));
    BodyLength(entry);
    FromLeToLe(|entry.key|, 4);
    assert code[1..5] == ToLe(|entry.key|, 4);
    if entry.Put? {
      var start := 5 + |entry.key|;
      FromLeToLe(|entry.value|, 4);
      assert code[start..start + 4] == ToLe(|entry.value|, 4);
    }
  }

  lemma SliceOfPrefix(code: Bytes, cut: nat, later: Bytes, i: nat, j: nat)
    requires i <= j <= cut <= |code|
    ensures (code[..cut] + later)[i..j] == code[i..j]
  {
  }

  lemma ShortEntryIsError(entry: WalEntry, cut: nat, later: Bytes)
    requires entry.Fits() && HeaderLength(entry) <= cut && cut + |later| < |Encoding(entry)|
    ensures Decode(Encoding(entry)[..cut] + later) == Err(Error)
  {
    hide FromLe, Encoding, Sum;
    var code := Encoding(entry);
    DeclaredShape(entry);
    SliceOfPrefix(code, cut, later, 1, 5);
    if entry.Put? {
      SliceOfPrefix(code, cut, later, 5 + |entry.key|, 9 + |entry.key|);
    }
  }
}
