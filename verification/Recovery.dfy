/** Recovery codes: 125 random bits as 25 characters and a checksum group, and
    the tolerant reading of what a user types. */
module Recovery {
  import opened Wrappers
  import opened Binary
  import opened Crypto

  /** Crockford Base32. */
  const ALPHABET: string := "0123456789ABCDEFGHJKMNPQRSTVWXYZ"
  const DATA_CHARS: nat := 25
  const CHECK_CHARS: nat := 5
  const GROUP_SIZE: nat := 5
  const RAW_BYTES: nat := 16

  /** A recovery code: 25 data characters and 5 checksum characters. */
  datatype Code = Code(data: string, check: string)

  predicate InAlphabet(c: char) {
    '0' <= c <= '9' || 'A' <= c <= 'H' || c == 'J' || c == 'K' || c == 'M' || c == 'N' || 'P' <= c <= 'T' || 'V' <= c <= 'Z'
  }

  function Digit(c: char): (d: nat)
    requires InAlphabet(c)
    ensures d < 32 && ALPHABET[d] == c
  {
    var n := c as int;
    if c <= '9' then n - '0' as int
    else if c <= 'H' then n - 'A' as int + 10
    else if c <= 'K' then n - 'J' as int + 18
    else if c <= 'N' then n - 'M' as int + 20
    else if c <= 'T' then n - 'P' as int + 22
    else n - 'V' as int + 27
  }

  lemma LetterIs(d: nat)
    requires d < 32
    ensures |ALPHABET| == 32 && InAlphabet(ALPHABET[d]) && Digit(ALPHABET[d]) == d
  {
  }

  function Letter(d: nat): (c: char)
    requires d < 32
    ensures InAlphabet(c) && Digit(c) == d
  {
    LetterIs(d);
    ALPHABET[d]
  }

  predicate AreDigits(s: string) { forall i :: 0 <= i < |s| ==> InAlphabet(s[i]) }

  /** The number a string of digits stands for in base 32. */
  function Value(s: string): nat
    requires AreDigits(s)
  {
    if s == "" then 0 else Value(s[..|s| - 1]) * 32 + Digit(s[|s| - 1])
  }

  lemma ValueOfMore(s: string, d: nat)
    requires AreDigits(s) && d < 32
    ensures AreDigits(s + [Letter(d)]) && Value(s + [Letter(d)]) == Value(s) * 32 + d
  {
    var t := s + [Letter(d)];
    assert t[..|t| - 1] == s;
    hide Digit, InAlphabet, Letter;
  }

  /** Strings of the same length with the same value are the same. */
  lemma {:induction false} ValueInjective(s: string, t: string)
    requires |s| == |t| && AreDigits(s) && AreDigits(t) && Value(s) == Value(t)
    ensures s == t
  {
    hide InAlphabet;
    if |s| > 0 {
      var n := |s| - 1;
      QuotientIs(Value(s), 32, Value(s[..n]), Digit(s[n]));
      QuotientIs(Value(t), 32, Value(t[..n]), Digit(t[n]));
      ValueInjective(s[..n], t[..n]);
      assert s == s[..n] + [s[n]] && t == t[..n] + [t[n]];
    }
  }

  // --------------------------------------------------------------------- bit arithmetic

  function Pow2(n: nat): (r: nat)
    ensures r > 0
  {
    if n == 0 then 1 else 2 * Pow2(n - 1)
  }

  lemma {:induction false} Pow2Adds(m: nat, n: nat)
    ensures Pow2(m + n) == Pow2(m) * Pow2(n)
    decreases n
  {
    if n > 0 {
      Pow2Adds(m, n - 1);
    }
  }

  lemma DivDiv(a: nat, b: nat, c: nat)
    requires b > 0 && c > 0
    ensures b * c > 0 && a / b / c == a / (b * c)
  {
    MulPositive(b, c);
    var q, r := a / b, a % b;
    assert a == b * q + r;
    var s, t := q / c, q % c;
    assert q == c * s + t;
    assert b * q == b * (c * s) + b * t;
    assert b * (c * s) == (b * c) * s;
    assert b * t + b <= b * c by {
      assert t + 1 <= c;
      MulMonotonic(b, t + 1, c);
      assert b * (t + 1) == b * t + b;
    }
    QuotientIs(a, b * c, s, b * t + r);
  }

  lemma MulPositive(b: nat, c: nat)
    requires b > 0 && c > 0
    ensures b * c > 0
  {
  }

  lemma MulMonotonic(a: nat, b: nat, c: nat)
    requires b <= c
    ensures a * b <= a * c
  {
  }

  /** v >> bits. */
  function Shr(v: nat, bits: nat): nat {
    DivNat(v, Pow2(bits));
    v / Pow2(bits)
  }

  lemma DivNat(v: nat, d: nat)
    requires d > 0
    ensures v / d >= 0
  {
  }

  lemma SmallPowers()
    ensures Pow2(0) == 1 && Pow2(3) == 8 && Pow2(5) == 32 && Pow2(7) == 128 && Pow2(8) == 256
  {
    assert Pow2(3) == 8;
    assert Pow2(5) == 32;
    assert Pow2(7) == 128;
  }

  /** A shift by one more group of five bits. */
  lemma NextDigit(v: nat, bits: nat)
    requires bits >= 5
    ensures Shr(v, bits - 5) == Shr(v, bits) * 32 + Shr(v, bits - 5) % 32
    ensures Shr(v, bits - 5) / 32 == Shr(v, bits)
  {
    Pow2Adds(bits - 5, 5);
    SmallPowers();
    hide Pow2;
    DivDiv(v, Pow2(bits - 5), 32);
  }

  lemma NextByte(v: nat, b: nat, bits: nat)
    requires b < 256
    ensures Shr(v * 256 + b, bits + 8) == Shr(v, bits)
  {
    Pow2Adds(8, bits);
    SmallPowers();
    hide Pow2;
    QuotientIs(v * 256 + b, 256, v, b);
    DivDiv(v * 256 + b, 256, Pow2(bits));
  }

  /** The bits an overflowing 64-bit accumulator has lost are not looked at. */
  lemma LowBits(v: nat, bits: nat)
    requires bits + 5 <= 64
    ensures Shr(v % TWO_TO_THE_64, bits) % 32 == Shr(v, bits) % 32
  {
    WordParts(bits);
    hide Pow2;
    LowPart(v, Pow2(bits), Pow2(59 - bits));
  }

  lemma LowPart(v: nat, p: nat, m: nat)
    requires p > 0 && m > 0
    ensures p * (32 * m) > 0 && v % (p * (32 * m)) / p % 32 == v / p % 32
  {
    MulPositive(p, 32 * m);
    var word := p * (32 * m);
    var w, q := v % word, v / word;
    Regroup(p, m, q);
    assert v == word * q + w;
    DivideSum(p, 32 * (m * q), w);
    DropMultiple(m * q, w / p);
  }

  lemma Regroup(p: nat, m: nat, q: nat)
    ensures p * (32 * m) * q == p * (32 * (m * q)) && m * q >= 0
  {
    assert 32 * m * q == 32 * (m * q);
  }

  lemma WordParts(bits: nat)
    requires bits + 5 <= 64
    ensures TWO_TO_THE_64 == Pow2(bits) * (32 * Pow2(59 - bits))
  {
    Pow2Adds(bits, 64 - bits);
    Pow2Adds(5, 59 - bits);
    Pow2Of64();
    SmallPowers();
    hide Pow2;
  }

  lemma DivideSum(p: nat, n: nat, w: nat)
    requires p > 0
    ensures (p * n + w) / p == n + w / p
  {
    var x, r := w / p, w % p;
    assert w == p * x + r;
    assert p * n + w == p * (n + x) + r;
    DivNat(w, p);
    QuotientIs(p * n + w, p, n + x, r);
  }

  lemma DropMultiple(n: nat, x: int)
    ensures (32 * n + x) % 32 == x % 32
  {
  }

  lemma Pow2Of64()
    ensures Pow2(64) == TWO_TO_THE_64
  {
    SmallPowers();
    Pow2Adds(8, 8);
    Pow2Adds(16, 16);
    Pow2Adds(32, 32);
    hide Pow2;
  }

  // ---------------------------------------------------------------------------- creation

  /** Generate, from 16 random bytes: the value of the data characters is that of
      the first 125 of their 128 bits. */
  method Generate(suite: Suite, raw: Bytes) returns (code: Code)
    requires suite.Valid() && |raw| == RAW_BYTES
    ensures |code.data| == DATA_CHARS && AreDigits(code.data) && Value(code.data) == GetUint(raw) / 8
    ensures code.check == Checksum(suite, code.data) && HasCheck(suite, code.data, code.check)
  {
    hide *;
    Sizes();
    var data, acc: nat, bits: nat := "", 0, 0;
    StartOfBits();
    for i := 0 to |raw|
      invariant AreDigits(data) && |data| <= DATA_CHARS && bits + 5 * |data| == 8 * i
      invariant bits < 5 || (|data| == DATA_CHARS && bits <= 8)
      invariant acc == GetUint(raw[..i]) % TWO_TO_THE_64 && Value(data) == Shr(GetUint(raw[..i]), bits)
    {
      ghost var v := GetUint(raw[..i + 1]);
      MoreBytes(raw, i);
      NextByte(GetUint(raw[..i]), raw[i], bits);
      ShiftIn(GetUint(raw[..i]), raw[i]);
      acc := (acc * 256 + raw[i]) % TWO_TO_THE_64;
      bits := bits + 8;
      while bits >= 5 && |data| < DATA_CHARS
        invariant AreDigits(data) && |data| <= DATA_CHARS && bits + 5 * |data| == 8 * (i + 1) && bits <= 12
        invariant acc == v % TWO_TO_THE_64 && Value(data) == Shr(v, bits)
      {
        NextDigit(v, bits);
        bits := bits - 5;
        LowBits(v, bits);
        ValueOfMore(data, Shr(acc, bits) % 32);
        data := data + [Letter(Shr(acc, bits) % 32)];
      }
    }
    assert raw[..|raw|] == raw;
    ThreeBitsLeft(GetUint(raw));
    var check := RecoveryChecksum(suite, data);
    code := Code(data, check);
  }

  lemma Sizes()
    ensures DATA_CHARS == 25 && CHECK_CHARS == 5 && RAW_BYTES == 16 && HASH_LEN == 32 && |ALPHABET| == 32
    ensures TWO_TO_THE_64 == 0x1_0000_0000_0000_0000
  {
  }

  lemma StartOfBits()
    ensures AreDigits("") && Value("") == 0 && GetUint([]) == 0 && Shr(0, 0) == 0
  {
  }

  lemma MoreBytes(raw: Bytes, i: nat)
    requires i < |raw|
    ensures GetUint(raw[..i + 1]) == GetUint(raw[..i]) * 256 + raw[i]
  {
    assert raw[..i + 1][..i] == raw[..i];
  }

  lemma ShiftIn(v: nat, b: nat)
    ensures (v % TWO_TO_THE_64 * 256 + b) % TWO_TO_THE_64 == (v * 256 + b) % TWO_TO_THE_64
  {
    var w, q := v % TWO_TO_THE_64, v / TWO_TO_THE_64;
    var x := w * 256 + b;
    QuotientIs(v * 256 + b, TWO_TO_THE_64, 256 * q + x / TWO_TO_THE_64, x % TWO_TO_THE_64);
  }

  lemma ThreeBitsLeft(v: nat)
    ensures Shr(v, 3) == v / 8
  {
    SmallPowers();
    hide Pow2;
  }

  /** The most significant 25 of the first 32 bits of a hash, as five characters. */
  function Checksum(suite: Suite, data: string): (check: string)
    requires suite.Valid() && AreDigits(data)
  {
    Spell(GetUint(HashOf(suite, data)[..4]) / 128, CHECK_CHARS)
  }

  function HashOf(suite: Suite, data: string): (h: Bytes)
    requires suite.Valid() && AreDigits(data)
    ensures |h| == HASH_LEN
  {
    suite.sha256(Ascii("RestoreSafe recovery code|") + Ascii(data))
  }

  function Ascii(s: string): Bytes { seq(|s|, i requires 0 <= i < |s| => s[i] as int % 256) }

  /** The last n base-32 digits of v. */
  function Spell(v: nat, n: nat): (s: string)
    ensures |s| == n && AreDigits(s)
  {
    if n == 0 then "" else Spell(v / 32, n - 1) + [Letter(v % 32)]
  }

  /** What is hashed: a label, then the characters of the code. */
  ghost predicate IsHashed(text: Bytes, data: string) {
    && |text| == 26 + |data|
    && (forall i :: 0 <= i < 26 ==> text[i] == "RestoreSafe recovery code|"[i] as int)
    && (forall i :: 0 <= i < |data| ==> text[26 + i] == data[i] as int)
  }

  /** The first 25 bits of a hash. */
  function First25(h: Bytes): nat
    requires |h| >= 4
  {
    var a: nat, b: nat, c: nat, d: nat := h[0], h[1], h[2], h[3];
    (a * 0x100_0000 + b * 0x1_0000 + c * 0x100 + d) / 128
  }

  /** Five digits that spell the first 25 bits of the hash of these characters. */
  ghost predicate HasCheck(suite: Suite, data: string, check: string)
    requires suite.Valid()
  {
    && |check| == 5 && AreDigits(check)
    && exists text: Bytes :: IsHashed(text, data) && Value(check) == First25(suite.sha256(text))
  }

  lemma HashedIs(data: string)
    requires AreDigits(data)
    ensures IsHashed(Ascii("RestoreSafe recovery code|") + Ascii(data), data)
    ensures forall text: Bytes :: IsHashed(text, data) ==> text == Ascii("RestoreSafe recovery code|") + Ascii(data)
  {
  }

  lemma First25Is(h: Bytes)
    requires |h| >= 4
    ensures First25(h) == GetUint(h[..4]) / 128 < 0x200_0000
  {
    MoreBytes(h, 0);
    MoreBytes(h, 1);
    MoreBytes(h, 2);
    MoreBytes(h, 3);
    assert h[..0] == [] && GetUint([]) == 0;
    hide GetUint;
  }

  lemma {:induction false} ValueOfSpelled(v: nat, n: nat)
    requires v < Pow2(5 * n)
    ensures Value(Spell(v, n)) == v
  {
    if n > 0 {
      Pow2Adds(5 * (n - 1), 5);
      SmallPowers();
      ValueOfSpelled(v / 32, n - 1);
      ValueOfMore(Spell(v / 32, n - 1), v % 32);
      hide Pow2;
    }
  }

  /** The check group is the only string that spells those bits. */
  lemma ChecksumIs(suite: Suite, data: string, check: string)
    requires suite.Valid() && AreDigits(data)
    ensures check == Checksum(suite, data) <==> HasCheck(suite, data, check)
  {
    HashedIs(data);
    var h := HashOf(suite, data);
    First25Is(h);
    Pow2Adds(20, 5);
    Pow2Adds(10, 10);
    Pow2Adds(5, 5);
    SmallPowers();
    ValueOfSpelled(First25(h), 5);
    hide Pow2, Spell, Value, GetUint, IsHashed, First25, InAlphabet;
    if HasCheck(suite, data, check) {
      ValueInjective(check, Checksum(suite, data));
    }
  }

  method RecoveryChecksum(suite: Suite, data: string) returns (check: string)
    requires suite.Valid() && AreDigits(data)
    ensures check == Checksum(suite, data) && HasCheck(suite, data, check)
  {
    hide *;
    Sizes();
    var sum := HashOf(suite, data);
    var acc := GetUint(sum[..4]);
    check := "";
    SpellNothing(Shr(acc, 32));
    for i := 0 to CHECK_CHARS
      invariant check == Spell(Shr(acc, 32 - 5 * i), i)
    {
      var shift := 32 - 5 * (i + 1);
      SpellMore(acc, 32 - 5 * i, i);
      check := check + [Letter(Shr(acc, shift) % 32)];
    }
    ChecksumUnfolds(suite, data);
    ChecksumIs(suite, data, check);
  }

  lemma SpellNothing(v: nat)
    ensures Spell(v, 0) == ""
  {
  }

  lemma SpellMore(acc: nat, bits: nat, n: nat)
    requires bits >= 5
    ensures var v := Shr(acc, bits - 5);
            Spell(v, n + 1) == Spell(Shr(acc, bits), n) + [Letter(v % 32)]
  {
    hide *;
    var v := Shr(acc, bits - 5);
    NextDigit(acc, bits);
    SpellUnfolds(v, n + 1);
  }

  lemma SpellUnfolds(v: nat, n: nat)
    requires n > 0
    ensures Spell(v, n) == Spell(v / 32, n - 1) + [Letter(v % 32)]
  {
  }

  lemma ChecksumUnfolds(suite: Suite, data: string)
    requires suite.Valid() && AreDigits(data)
    ensures forall v: nat :: Shr(v, 32 - 5 * CHECK_CHARS) == v / 128
    ensures Checksum(suite, data) == Spell(GetUint(HashOf(suite, data)[..4]) / 128, CHECK_CHARS)
  {
    SmallPowers();
    hide Spell, Pow2;
  }

  /** Every string of 25 digits is generated, from exactly the raw bytes that
      agree in their first 125 bits. */
  lemma EveryCodeIsGenerated(data: string) returns (raw: Bytes)
    requires |data| == DATA_CHARS && AreDigits(data)
    ensures |raw| == RAW_BYTES && Value(data) == GetUint(raw) / 8
  {
    ValueBound(data);
    Pow32Of25();
    raw := PutUint(Value(data) * 8, RAW_BYTES);
    GetPut(Value(data) * 8, RAW_BYTES);
    hide Value, PutUint, GetUint;
  }

  lemma {:induction false} ValueBound(s: string)
    requires AreDigits(s)
    ensures Value(s) < Pow2(5 * |s|)
  {
    hide InAlphabet, Pow2;
    if |s| > 0 {
      ValueBound(s[..|s| - 1]);
      Pow2Adds(5 * (|s| - 1), 5);
      SmallPowers();
    }
  }

  lemma Pow32Of25()
    ensures Pow2(125) * 8 == Pow256(RAW_BYTES)
  {
    Pow2Adds(125, 3);
    SmallPowers();
    PowersAgree(RAW_BYTES);
    hide Pow2, Pow256;
  }

  lemma {:induction false} PowersAgree(n: nat)
    ensures Pow256(n) == Pow2(8 * n)
  {
    if n > 0 {
      PowersAgree(n - 1);
      Pow2Adds(8, 8 * (n - 1));
      SmallPowers();
    }
    SmallPowers();
    hide Pow2;
  }

  // ----------------------------------------------------------------------------- display

  predicate IsCode(suite: Suite, code: Code)
    requires suite.Valid()
  {
    && |code.data| == DATA_CHARS && AreDigits(code.data)
    && code.check == Checksum(suite, code.data)
  }

  /** Groups of five characters with dashes between them. */
  function Grouped(chars: string): string {
    if chars == "" then ""
    else
      var n := |chars| - 1;
      Grouped(chars[..n]) + (if n > 0 && n % GROUP_SIZE == 0 then "-" else "") + [chars[n]]
  }

  method Display(code: Code) returns (out: string)
    requires |code.data| == DATA_CHARS && |code.check| == CHECK_CHARS
    ensures out == Grouped(code.data + code.check)
    ensures |out| == 35 && forall i :: 0 <= i < 35 ==> out[i] == if i % 6 == 5 then '-' else (code.data + code.check)[i - i / 6]
  {
    ghost var chars := code.data + code.check;
    out := "";
    for i := 0 to DATA_CHARS + CHECK_CHARS
      invariant out == Grouped(chars[..i])
    {
      assert chars[..i + 1][..i] == chars[..i];
      if i > 0 && i % GROUP_SIZE == 0 {
        out := out + "-";
      }
      if i < DATA_CHARS {
        out := out + [code.data[i]];
      } else {
        out := out + [code.check[i - DATA_CHARS]];
      }
    }
    assert chars[..|chars|] == chars;
    GroupedAt(chars);
  }

  lemma {:induction false} GroupedAt(chars: string)
    ensures chars != "" ==> |Grouped(chars)| == |chars| + (|chars| - 1) / 5
    ensures forall i :: 0 <= i < |Grouped(chars)| ==>
              0 <= i - i / 6 < |chars| && Grouped(chars)[i] == if i % 6 == 5 then '-' else chars[i - i / 6]
  {
    if chars != "" {
      var n := |chars| - 1;
      GroupedAt(chars[..n]);
    }
  }

  // ----------------------------------------------------------------------------- parsing

  function Upper(c: char): char {
    if 'a' <= c <= 'z' then c - 'a' + 'A' else c
  }

  /** How one character is read: dropped, or as the character it stands for. */
  function Reading(c: char): string {
    var u := Upper(c);
    if u == ' ' || u == '-' || u == '\t' then ""
    else if u == 'I' || u == 'L' then ['1']
    else if u == 'O' then ['0']
    else [u]
  }

  function Canonical(input: string): string {
    if input == "" then "" else Canonical(input[..|input| - 1]) + Reading(input[|input| - 1])
  }

  datatype Parsed = Accepted(code: Code) | InvalidCharacter(c: char) | WrongLength(n: nat) | Typo

  function FirstInvalid(s: string): Option<char> {
    if s == "" then None
    else if FirstInvalid(s[..|s| - 1]).Some? then FirstInvalid(s[..|s| - 1])
    else if InAlphabet(s[|s| - 1]) then None
    else Some(s[|s| - 1])
  }

  lemma {:induction false} NoneInvalid(s: string)
    ensures FirstInvalid(s).None? <==> AreDigits(s)
  {
    hide InAlphabet;
    if s != "" {
      NoneInvalid(s[..|s| - 1]);
      assert s == s[..|s| - 1] + [s[|s| - 1]];
    }
  }

  function ParseCanonical(suite: Suite, s: string): Parsed
    requires suite.Valid()
  {
    NoneInvalid(s);
    if FirstInvalid(s).Some? then InvalidCharacter(FirstInvalid(s).value)
    else if |s| != DATA_CHARS + CHECK_CHARS then WrongLength(|s|)
    else if Checksum(suite, s[..DATA_CHARS]) != s[DATA_CHARS..] then Typo
    else Accepted(Code(s[..DATA_CHARS], s[DATA_CHARS..]))
  }

  /** What the answer says of the characters that were read. */
  ghost predicate Reads(suite: Suite, s: string, r: Parsed)
    requires suite.Valid()
  {
    match r
    case InvalidCharacter(c) => exists k :: 0 <= k < |s| && s[k] == c && !InAlphabet(c) && AreDigits(s[..k])
    case WrongLength(n) => AreDigits(s) && n == |s| != 30
    case Typo => AreDigits(s) && |s| == 30 && !HasCheck(suite, s[..25], s[25..])
    case Accepted(code) =>
      && AreDigits(s) && |s| == 30 && HasCheck(suite, s[..25], s[25..])
      && code.data == s[..25] && code.check == s[25..]
  }

  lemma {:induction false} FirstInvalidAt(s: string)
    requires FirstInvalid(s).Some?
    ensures exists k :: 0 <= k < |s| && s[k] == FirstInvalid(s).value && !InAlphabet(s[k]) && AreDigits(s[..k])
  {
    hide InAlphabet;
    var n := |s| - 1;
    if FirstInvalid(s[..n]).Some? {
      FirstInvalidAt(s[..n]);
      var k :| 0 <= k < n && s[..n][k] == FirstInvalid(s).value && !InAlphabet(s[k]) && AreDigits(s[..n][..k]);
      assert s[..n][..k] == s[..k];
    } else {
      NoneInvalid(s[..n]);
    }
  }

  lemma ParseReads(suite: Suite, s: string)
    requires suite.Valid()
    ensures Reads(suite, s, ParseCanonical(suite, s))
  {
    NoneInvalid(s);
    if FirstInvalid(s).Some? {
      FirstInvalidAt(s);
    } else if |s| == DATA_CHARS + CHECK_CHARS {
      ChecksumIs(suite, s[..25], s[25..]);
    }
    hide HasCheck, Checksum, InAlphabet, FirstInvalid;
  }

  /** Parse. */
  method Parse(suite: Suite, input: string) returns (r: Parsed)
    requires suite.Valid()
    ensures r == ParseCanonical(suite, Canonical(input)) && Reads(suite, Canonical(input), r)
  {
    ParseReads(suite, Canonical(input));
    hide *;
    Sizes();
    NothingRead();
    CollectOne("", ' ');
    var all, n := "", 0;
    for i := 0 to |input|
      invariant n == |Canonical(input[..i])| && FirstInvalid(Canonical(input[..i])).None?
      invariant all == FirstOf(Canonical(input[..i]))
    {
      ghost var before, after := Canonical(input[..i]), Canonical(input[..i + 1]);
      ReadingUnfolds(input[i]);
      ReadOne(input, i);
      var c := Upper(input[i]);
      if c == ' ' || c == '-' || c == '\t' {
        assert after == before + "" == before;
        continue;
      } else if c == 'I' || c == 'L' {
        c := '1';
      } else if c == 'O' {
        c := '0';
      }
      assert after == before + [c];
      InvalidOne(before, c);
      CollectOne(before, c);
      if !InAlphabet(c) {
        InvalidStays(input, i + 1);
        InvalidIs(suite, Canonical(input));
        return InvalidCharacter(c);
      }
      n := n + 1;
      if |all| < DATA_CHARS + CHECK_CHARS {
        all := all + [c];
      }
    }
    assert input[..|input|] == input;
    NoneInvalid(Canonical(input));
    ParseUnfolds(suite, Canonical(input));
    if n != DATA_CHARS + CHECK_CHARS {
      return WrongLength(n);
    }
    AllCollected(Canonical(input));
    DigitsOfPart(all, DATA_CHARS);
    var check := RecoveryChecksum(suite, all[..DATA_CHARS]);
    return if check != all[DATA_CHARS..] then Typo else Accepted(Code(all[..DATA_CHARS], all[DATA_CHARS..]));
  }

  /** The characters that are collected. */
  ghost function FirstOf(s: string): string { if |s| <= 30 then s else s[..30] }

  lemma CollectOne(s: string, c: char)
    ensures FirstOf("") == ""
    ensures FirstOf(s + [c]) == if |FirstOf(s)| < 30 then FirstOf(s) + [c] else FirstOf(s)
  {
  }

  lemma AllCollected(s: string)
    requires |s| == 30
    ensures FirstOf(s) == s
  {
  }

  lemma NothingRead()
    ensures Canonical("") == "" && FirstInvalid("").None?
  {
  }

  lemma ReadingUnfolds(c: char)
    ensures var u := Upper(c);
            Reading(c) == if u == ' ' || u == '-' || u == '\t' then ""
                          else if u == 'I' || u == 'L' then ['1'] else if u == 'O' then ['0'] else [u]
  {
  }

  lemma ReadOne(input: string, i: nat)
    requires i < |input|
    ensures Canonical(input[..i + 1]) == Canonical(input[..i]) + Reading(input[i])
  {
    assert input[..i + 1][..i] == input[..i];
    hide Reading;
  }

  lemma InvalidOne(s: string, c: char)
    requires FirstInvalid(s).None?
    ensures FirstInvalid(s + [c]) == if InAlphabet(c) then None else Some(c)
  {
    hide InAlphabet;
    assert (s + [c])[..|s|] == s;
  }

  lemma {:induction false} InvalidConcat(s: string, t: string)
    requires FirstInvalid(s).Some?
    ensures FirstInvalid(s + t) == FirstInvalid(s)
    decreases |t|
  {
    hide InAlphabet;
    if t == "" {
      assert s + t == s;
    } else {
      assert (s + t)[..|s + t| - 1] == s + t[..|t| - 1];
      InvalidConcat(s, t[..|t| - 1]);
    }
  }

  lemma InvalidStays(input: string, k: nat)
    requires k <= |input| && FirstInvalid(Canonical(input[..k])).Some?
    ensures FirstInvalid(Canonical(input)) == FirstInvalid(Canonical(input[..k]))
  {
    hide *;
    CanonicalConcat(input[..k], input[k..]);
    assert input[..k] + input[k..] == input;
    InvalidConcat(Canonical(input[..k]), Canonical(input[k..]));
  }

  lemma InvalidIs(suite: Suite, s: string)
    requires suite.Valid() && FirstInvalid(s).Some?
    ensures ParseCanonical(suite, s) == InvalidCharacter(FirstInvalid(s).value)
  {
  }

  lemma ParseUnfolds(suite: Suite, s: string)
    requires suite.Valid() && AreDigits(s) && FirstInvalid(s).None?
    ensures |s| != DATA_CHARS + CHECK_CHARS ==> ParseCanonical(suite, s) == WrongLength(|s|)
    ensures |s| == DATA_CHARS + CHECK_CHARS ==>
              && AreDigits(s[..DATA_CHARS])
              && ParseCanonical(suite, s) ==
                 if Checksum(suite, s[..DATA_CHARS]) != s[DATA_CHARS..] then Typo
                 else Accepted(Code(s[..DATA_CHARS], s[DATA_CHARS..]))
  {
    hide Checksum, FirstInvalid, InAlphabet;
  }

  lemma DigitsOfPart(s: string, k: nat)
    requires k <= |s| && AreDigits(s)
    ensures AreDigits(s[..k])
  {
  }

  // -------------------------------------------------------------------------- the theorems

  lemma {:induction false} CanonicalConcat(a: string, b: string)
    ensures Canonical(a + b) == Canonical(a) + Canonical(b)
    decreases |b|
  {
    hide Reading;
    if b == "" {
      assert a + b == a;
    } else {
      var n := |b| - 1;
      assert (a + b)[..|a| + n] == a + b[..n];
      CanonicalConcat(a, b[..n]);
    }
  }

  lemma {:induction false} CanonicalOfGroups(chars: string)
    requires AreDigits(chars)
    ensures Canonical(Grouped(chars)) == chars
  {
    hide *;
    GroupedUnfolds(chars);
    if chars == "" {
      NothingRead();
    } else {
      var n := |chars| - 1;
      DigitsSplit(chars);
      CanonicalOfGroups(chars[..n]);
      var dash := if n > 0 && n % GROUP_SIZE == 0 then "-" else "";
      CanonicalConcat(Grouped(chars[..n]) + dash, [chars[n]]);
      CanonicalConcat(Grouped(chars[..n]), dash);
      CanonicalOfOne(chars[n]);
      DashIsDropped();
      DigitReadsItself(chars[n]);
      assert chars[..n] + "" == chars[..n];
      assert chars == chars[..n] + [chars[n]];
    }
  }

  lemma GroupedUnfolds(chars: string)
    ensures GROUP_SIZE == 5
    ensures chars == "" ==> Grouped(chars) == ""
    ensures chars != "" ==>
              var n := |chars| - 1;
              Grouped(chars) == Grouped(chars[..n]) + (if n > 0 && n % GROUP_SIZE == 0 then "-" else "") + [chars[n]]
  {
  }

  lemma DigitsSplit(chars: string)
    requires AreDigits(chars) && chars != ""
    ensures AreDigits(chars[..|chars| - 1]) && InAlphabet(chars[|chars| - 1])
  {
  }

  lemma DashIsDropped()
    ensures Canonical("-") == "" && Canonical("") == ""
  {
    CanonicalOfOne('-');
  }

  lemma CanonicalOfOne(c: char)
    ensures Canonical([c]) == Reading(c)
  {
    assert [c][..0] == "" && Canonical("") == "";
    hide Reading;
  }

  lemma DigitReadsItself(c: char)
    requires InAlphabet(c)
    ensures Reading(c) == [c]
  {
  }

  /** A code that is shown and typed in again is the same code. */
  lemma ParseDisplayed(suite: Suite, code: Code)
    requires suite.Valid() && IsCode(suite, code)
    ensures ParseCanonical(suite, Canonical(Grouped(code.data + code.check))) == Accepted(code)
  {
    var s := code.data + code.check;
    assert AreDigits(s) && |s| == DATA_CHARS + CHECK_CHARS;
    CanonicalOfGroups(s);
    NoneInvalid(s);
    assert s[..DATA_CHARS] == code.data && s[DATA_CHARS..] == code.check;
    ParseUnfolds(suite, s);
    hide Checksum, ParseCanonical, InAlphabet, FirstInvalid;
  }

  /** An input is accepted as a code exactly when the code is well formed and the
      input reads as its characters. */
  lemma AcceptedInputs(suite: Suite, input: string, code: Code)
    requires suite.Valid()
    ensures ParseCanonical(suite, Canonical(input)) == Accepted(code) <==>
            IsCode(suite, code) && Canonical(input) == code.data + code.check
  {
    var s := Canonical(input);
    NoneInvalid(s);
    if IsCode(suite, code) && s == code.data + code.check {
      assert s[..DATA_CHARS] == code.data && s[DATA_CHARS..] == code.check;
    }
    hide Canonical, Checksum, InAlphabet, FirstInvalid;
  }

  /** A mistyped code with the check group of another one is a typo, unless the
      hashes of the two agree in their first 25 bits. */
  lemma TypoIsFound(suite: Suite, data: string, typed: string, text: Bytes, other: Bytes)
    requires suite.Valid() && AreDigits(data) && AreDigits(typed) && |data| == |typed| == DATA_CHARS
    requires IsHashed(text, data) && IsHashed(other, typed)
    ensures data != typed ==> text != other
    ensures ParseCanonical(suite, typed + Checksum(suite, data)) == Typo <==>
            First25(suite.sha256(text)) != First25(suite.sha256(other))
  {
    var check := Checksum(suite, data);
    var s := typed + check;
    HashedIs(data);
    HashedIs(typed);
    ChecksumIs(suite, data, check);
    ChecksumIs(suite, typed, check);
    assert s[..25] == typed && s[25..] == check;
    ParseReads(suite, s);
    if data != typed {
      var i :| 0 <= i < 25 && data[i] != typed[i];
      assert text[26 + i] != other[26 + i];
    }
    hide Checksum, ParseCanonical, InAlphabet, IsHashed, Value, First25;
  }

  /** Every mistake in the data characters is one that some hash function finds. */
  lemma SomeHashFindsIt(data: string, typed: string) returns (suite: Suite)
    requires AreDigits(data) && AreDigits(typed) && |data| == |typed| == DATA_CHARS && data != typed
    ensures suite.Valid() && ParseCanonical(suite, typed + Checksum(suite, data)) == Typo
  {
    var base := SomeSuite();
    HashedIs(data);
    HashedIs(typed);
    var text, other :| IsHashed(text, data) && IsHashed(other, typed);
    TypoIsFound(base, data, typed, text, other);
    var h := base.sha256(text);
    var h' := Changed(h);
    suite := base.(sha256 := (b: Bytes) => if b == other then h' else base.sha256(b));
    StillValid(base, other, h', suite);
    TypoIsFound(suite, data, typed, text, other);
    hide IsHashed, Checksum, ParseCanonical, Suite.Valid, First25, Changed, AreDigits;
  }

  function Changed(h: Bytes): (h': Bytes)
    requires |h| >= 4
    ensures |h'| == |h| && First25(h') != First25(h)
  {
    var first: int := h[0];
    var other: byte := if first == 0 then 1 else 0;
    [other] + h[1..]
  }

  lemma StillValid(base: Suite, other: Bytes, h: Bytes, suite: Suite)
    requires base.Valid() && |h| == HASH_LEN
    requires suite == base.(sha256 := suite.sha256)
    requires forall b :: suite.sha256(b) == if b == other then h else base.sha256(b)
    ensures suite.Valid()
  {
  }

  /** Characters that are read alike: letters in either case, I, L and 1, O and 0. */
  predicate Alike(c: char, d: char) {
    || c == d || (IsOne(c) && IsOne(d)) || (IsZero(c) && IsZero(d))
    || ('a' <= c <= 'z' && c as int == d as int + 32) || ('a' <= d <= 'z' && d as int == c as int + 32)
  }

  predicate IsOne(c: char) { c in "IiLl1" }

  predicate IsZero(c: char) { c in "Oo0" }

  predicate IsSeparator(c: char) { c == ' ' || c == '-' || c == '\t' }

  /** Wherever it stands, a separator may be added or left out, and a character
      replaced by one that is read alike: Parse answers the same. */
  lemma ParseTolerates(suite: Suite, a: string, b: string, c: char, d: char)
    requires suite.Valid()
    ensures IsSeparator(c) ==> ParseCanonical(suite, Canonical(a + [c] + b)) == ParseCanonical(suite, Canonical(a + b))
    ensures Alike(c, d) ==>
              ParseCanonical(suite, Canonical(a + [c] + b)) == ParseCanonical(suite, Canonical(a + [d] + b))
  {
    CanonicalConcat(a + [c], b);
    CanonicalConcat(a, [c]);
    CanonicalConcat(a + [d], b);
    CanonicalConcat(a, [d]);
    CanonicalConcat(a, b);
    CanonicalOfOne(c);
    CanonicalOfOne(d);
    AlikeReading(c, d);
    hide Canonical, ParseCanonical, Alike, Reading;
    assert Canonical(a) + "" == Canonical(a);
  }

  lemma AlikeReading(c: char, d: char)
    ensures IsSeparator(c) ==> Reading(c) == ""
    ensures Alike(c, d) ==> Reading(c) == Reading(d)
  {
  }
}
