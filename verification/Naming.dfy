/** Backup file names: how they are printed and which strings parse as what. */
module Naming {
  import opened Wrappers

  const TEMP_SUFFIX: string := ".tmp"
  const MAX_PART_SEQUENCE: nat := 999

  /** One backup set: all parts of one source directory written in one run. */
  datatype BackupEntry = BackupEntry(directoryName: string, chainId: string, date: string, diffNumber: int) {
    predicate IsDiff() { diffNumber > 0 }

    function TypeLabel(): string {
      if IsDiff() then "DIFF" + Padded3(diffNumber) else "FULL"
    }
  }

  // ------------------------------------------------------------- number formatting

  predicate IsDigit(c: char) { '0' <= c <= '9' }

  function Digit(d: nat): (c: char)
    requires d < 10
    ensures IsDigit(c)
  {
    '0' + d as char
  }

  function DigitValue(c: char): nat
    requires IsDigit(c)
  {
    c as nat - '0' as nat
  }

  function Decimal(n: nat): (s: string)
    ensures |s| >= 1 && forall i :: 0 <= i < |s| ==> IsDigit(s[i])
    ensures n >= 1000 ==> |s| >= 4
    ensures n >= 100 ==> |s| >= 3
    ensures n >= 10 ==> |s| >= 2
  {
    if n < 10 then [Digit(n)] else Decimal(n / 10) + [Digit(n % 10)]
  }

  /** %03d of a number that is not negative. */
  function Padded3(n: nat): (s: string)
    ensures |s| >= 3 && forall i :: 0 <= i < |s| ==> IsDigit(s[i])
    ensures n >= 1000 ==> |s| >= 4
  {
    if n < 1000 then [Digit(n / 100), Digit(n / 10 % 10), Digit(n % 10)] else Decimal(n)
  }

  predicate IsThreeDigits(s: string) {
    |s| == 3 && IsDigit(s[0]) && IsDigit(s[1]) && IsDigit(s[2])
  }

  function Number3(s: string): (n: nat)
    requires IsThreeDigits(s)
    ensures n <= 999
  {
    100 * DigitValue(s[0]) + 10 * DigitValue(s[1]) + DigitValue(s[2])
  }

  lemma PaddedNumber(s: string)
    requires IsThreeDigits(s)
    ensures Padded3(Number3(s)) == s
  {
    var a, b, c := DigitValue(s[0]), DigitValue(s[1]), DigitValue(s[2]);
    var n := Number3(s);
    assert n / 10 == 10 * a + b && n % 10 == c;
    assert n / 100 == a && (10 * a + b) % 10 == b;
  }

  lemma NumberPadded(n: nat)
    requires n <= 999
    ensures IsThreeDigits(Padded3(n)) && Number3(Padded3(n)) == n
  {
    assert n / 10 == 10 * (n / 100) + n / 10 % 10;
  }

  // ------------------------------------------------------------------ the patterns

  predicate IsIdChar(c: char) { 'A' <= c <= 'Z' || IsDigit(c) }

  predicate IsId(s: string) {
    |s| == 6 && forall i :: 0 <= i < 6 ==> IsIdChar(s[i])
  }

  predicate IsDate(s: string) {
    && |s| == 10 && s[4] == '-' && s[7] == '-'
    && forall i :: 0 <= i < 10 && i != 4 && i != 7 ==> IsDigit(s[i])
  }

  /** What (.+?) matches: one or more characters, none a line break. */
  predicate IsName(s: string) { s != "" && '\n' !in s }

  predicate HasSeparator(s: string) { '/' in s || '\\' in s }

  /** FULL, or DIFF and three digits. */
  predicate IsTypeLabel(s: string) {
    s == "FULL" || (|s| == 7 && s[..4] == "DIFF" && IsThreeDigits(s[4..]))
  }

  predicate EndsWith(s: string, suffix: string) {
    |s| >= |suffix| && s[|s| - |suffix|..] == suffix
  }

  /** A match of partFilePattern: its groups. */
  datatype Groups = Groups(name: string, id: string, date: string, kind: string, digits: string, temp: bool) {
    predicate WellFormed() {
      IsName(name) && IsId(id) && IsDate(date) && IsTypeLabel(kind) && IsThreeDigits(digits)
    }

    function Body(): string {
      "[" + name + "]_" + id + "_" + date + "_" + kind + "-" + digits + ".enc"
    }

    /** The whole string that has these groups. */
    function Text(): string {
      Body() + (if temp then TEMP_SUFFIX else "")
    }
  }

  /** Where the groups of a part file name must lie. Behind the name everything
      has a fixed length once the type label is known, so it is read from the end. */
  function Cut(body: string, temp: bool): Option<Groups> {
    if |body| < 12 then None
    else
      var k := if body[|body| - 12..|body| - 8] == "FULL" then 4 else 7;
      var n := |body| - 29 - k;
      if n < 1 then None
      else Some(Groups(body[1..1 + n], body[n + 3..n + 9], body[n + 10..n + 20],
                       body[n + 21..n + 21 + k], body[n + 22 + k..n + 25 + k], temp))
  }

  /** partFilePattern.FindStringSubmatch. */
  function MatchPart(s: string): (r: Option<Groups>)
    ensures r.Some? ==> r.value.WellFormed() && r.value.Text() == s
  {
    var temp := EndsWith(s, TEMP_SUFFIX);
    match Cut(if temp then s[..|s| - 4] else s, temp)
    case Some(g) => if g.WellFormed() && g.Text() == s then Some(g) else None
    case None => None
  }

  lemma BodyLayout(g: Groups)
    requires g.WellFormed()
    ensures var b, n, k := g.Body(), |g.name|, |g.kind|;
            && (g.kind == "FULL" || k == 7)
            && |b| == n + 29 + k && b[0] == '['
            && b[1..1 + n] == g.name && b[n + 3..n + 9] == g.id && b[n + 10..n + 20] == g.date && b[n + 20] == '_'
            && b[n + 21..n + 21 + k] == g.kind && b[n + 22 + k..n + 25 + k] == g.digits
            && b[n + 25 + k..] == ".enc"
  {
  }

  lemma KindFromEnd(g: Groups)
    requires g.WellFormed()
    ensures |g.Body()| >= 33
    ensures (g.Body()[|g.Body()| - 12..|g.Body()| - 8] == "FULL") <==> g.kind == "FULL"
  {
    BodyLayout(g);
    var b, n := g.Body(), |g.name|;
    hide Groups.Body;
    if g.kind == "FULL" {
      assert b[|b| - 12..|b| - 8] == b[n + 21..n + 25];
    } else {
      assert b[n + 21..n + 28][4] == g.kind[4..][0];
      assert b[|b| - 12..|b| - 8][1] == b[n + 25];
    }
  }

  lemma CutBody(g: Groups)
    requires g.WellFormed()
    ensures Cut(g.Body(), g.temp) == Some(g)
  {
    BodyLayout(g);
    KindFromEnd(g);
    hide Groups.Body, Groups.WellFormed;
  }

  lemma TextLayout(g: Groups)
    requires g.WellFormed()
    ensures var s := g.Text();
            && EndsWith(s, TEMP_SUFFIX) == g.temp
            && (if g.temp then s[..|s| - 4] else s) == g.Body()
  {
    BodyLayout(g);
    hide Groups.Body;
    var b, s := g.Body(), g.Text();
    if g.temp {
      assert s[|s| - 4..] == TEMP_SUFFIX && s[..|s| - 4] == b;
    } else {
      assert s == b && s[|s| - 4..] == ".enc" && ".enc"[1] != TEMP_SUFFIX[1];
    }
  }

  /** The pattern matches every string that has well-formed groups, and finds
      exactly these groups: a string has at most one reading, whatever the
      directory name contains. */
  lemma MatchIsUnique(g: Groups)
    requires g.WellFormed()
    ensures MatchPart(g.Text()) == Some(g)
  {
    TextLayout(g);
    CutBody(g);
    hide Groups.Body, Groups.WellFormed, EndsWith, Cut;
  }

  // ------------------------------------------------------------ printing and parsing

  /** The base name PartFileName prints. */
  function PartName(e: BackupEntry, part: nat): string {
    "[" + e.directoryName + "]_" + e.chainId + "_" + e.date + "_" + e.TypeLabel() + "-" + Padded3(part) + ".enc"
  }

  datatype ParsedPart = ParsedPart(entry: BackupEntry, part: nat, temp: bool)

  function ParseAnyPartName(s: string): Option<ParsedPart> {
    if HasSeparator(s) then None
    else
      match MatchPart(s)
      case None => None
      case Some(g) =>
        var part := Number3(g.digits);
        var diff := if g.kind == "FULL" then 0 else Number3(g.kind[4..]);
        if part < 1 || (g.kind != "FULL" && diff < 1) then None
        else Some(ParsedPart(BackupEntry(g.name, g.id, g.date, diff), part, g.temp))
  }

  function ParsePartFileName(s: string): Option<(BackupEntry, nat)> {
    match ParseAnyPartName(s)
    case Some(p) => if p.temp then None else Some((p.entry, p.part))
    case None => None
  }

  function ParseTempPartFileName(s: string): Option<(BackupEntry, nat)> {
    match ParseAnyPartName(s)
    case Some(p) => if p.temp then Some((p.entry, p.part)) else None
    case None => None
  }

  /** What a set must look like for its part names to be found again. */
  predicate Printable(e: BackupEntry, part: nat) {
    && IsName(e.directoryName) && !HasSeparator(e.directoryName)
    && IsId(e.chainId) && IsDate(e.date)
    && 0 <= e.diffNumber <= 999 && 1 <= part <= MAX_PART_SEQUENCE
  }

  function GroupsOf(e: BackupEntry, part: nat, temp: bool): Groups {
    Groups(e.directoryName, e.chainId, e.date, e.TypeLabel(), Padded3(part), temp)
  }

  lemma SeparatorInConcat(a: string, b: string)
    ensures HasSeparator(a + b) <==> HasSeparator(a) || HasSeparator(b)
  {
  }

  lemma NoSeparators(g: Groups)
    requires g.WellFormed()
    ensures HasSeparator(g.Text()) <==> HasSeparator(g.name)
  {
    assert !HasSeparator(g.id) && !HasSeparator(g.date) && !HasSeparator(g.kind) && !HasSeparator(g.digits);
    assert !HasSeparator("[") && !HasSeparator("]_") && !HasSeparator("_") && !HasSeparator("-");
    assert !HasSeparator(".enc") && !HasSeparator("") && !HasSeparator(TEMP_SUFFIX);
    hide HasSeparator, Groups.WellFormed;
    var s := "[" + g.name;
    SeparatorInConcat("[", g.name);
    SeparatorInConcat(s, "]_");
    SeparatorInConcat(s + "]_", g.id);
    SeparatorInConcat(s + "]_" + g.id, "_");
    SeparatorInConcat(s + "]_" + g.id + "_", g.date);
    SeparatorInConcat(s + "]_" + g.id + "_" + g.date, "_");
    SeparatorInConcat(s + "]_" + g.id + "_" + g.date + "_", g.kind);
    SeparatorInConcat(s + "]_" + g.id + "_" + g.date + "_" + g.kind, "-");
    SeparatorInConcat(s + "]_" + g.id + "_" + g.date + "_" + g.kind + "-", g.digits);
    SeparatorInConcat(s + "]_" + g.id + "_" + g.date + "_" + g.kind + "-" + g.digits, ".enc");
    SeparatorInConcat(g.Body(), if g.temp then TEMP_SUFFIX else "");
  }

  lemma PrintableParses(e: BackupEntry, part: nat, temp: bool)
    requires Printable(e, part)
    ensures ParseAnyPartName(GroupsOf(e, part, temp).Text()) == Some(ParsedPart(e, part, temp))
  {
    hide Groups.Body, Groups.Text;
    var g := GroupsOf(e, part, temp);
    NumberPadded(part);
    if e.IsDiff() {
      NumberPadded(e.diffNumber);
      assert e.TypeLabel()[4..] == Padded3(e.diffNumber);
    }
    MatchIsUnique(g);
    NoSeparators(g);
  }

  /** A printed part name parses back to what was printed exactly when the set
      is printable: up to 999 parts and differentials, and any directory name
      without separators and line breaks, also one that looks like a part name. */
  lemma PrintThenParse(e: BackupEntry, part: nat)
    ensures ParsePartFileName(PartName(e, part)) == Some((e, part)) <==> Printable(e, part)
    ensures ParseTempPartFileName(PartName(e, part) + TEMP_SUFFIX) == Some((e, part)) <==> Printable(e, part)
  {
    assert PartName(e, part) == GroupsOf(e, part, false).Text();
    assert PartName(e, part) + TEMP_SUFFIX == GroupsOf(e, part, true).Text();
    if Printable(e, part) {
      PrintableParses(e, part, false);
      PrintableParses(e, part, true);
    }
  }

  /** Every name that parses is the printed name of what it parses to. */
  lemma ParseThenPrint(s: string)
    requires ParseAnyPartName(s).Some?
    ensures var p := ParseAnyPartName(s).value;
            && Printable(p.entry, p.part)
            && s == PartName(p.entry, p.part) + (if p.temp then TEMP_SUFFIX else "")
  {
    var g, p := MatchPart(s).value, ParseAnyPartName(s).value;
    PaddedNumber(g.digits);
    if g.kind != "FULL" {
      PaddedNumber(g.kind[4..]);
      assert g.kind == "DIFF" + g.kind[4..];
    }
    assert g == GroupsOf(p.entry, p.part, p.temp);
    NoSeparators(g);
    hide HasSeparator, Padded3;
  }

  // ---------------------------------------------------------------- the names, character by character

  predicate IsBetween(c: char, low: char, high: char) { low <= c <= high }

  /** What a part name can be made of. */
  predicate CanBeNamed(e: BackupEntry, part: nat) {
    && e.directoryName != "" && (forall c :: c in e.directoryName ==> c != '/' && c != '\\' && c != '\n')
    && |e.chainId| == 6 && (forall c :: c in e.chainId ==> IsBetween(c, 'A', 'Z') || IsBetween(c, '0', '9'))
    && |e.date| == 10 && (forall i :: 0 <= i < 10 ==> if i == 4 || i == 7 then e.date[i] == '-' else IsBetween(e.date[i], '0', '9'))
    && 0 <= e.diffNumber < 1000 && 0 < part < 1000
  }

  function Three(n: nat): string
    requires n < 1000
  {
    ['0' + (n / 100) as char, '0' + (n / 10 % 10) as char, '0' + (n % 10) as char]
  }

  /** The name is that of this part: directory, chain, date, kind and number. */
  predicate IsNameOf(s: string, e: BackupEntry, part: nat) {
    && CanBeNamed(e, part)
    && s == "[" + e.directoryName + "]_" + e.chainId + "_" + e.date + "_"
            + (if e.diffNumber == 0 then "FULL" else "DIFF" + Three(e.diffNumber)) + "-" + Three(part) + ".enc"
  }

  lemma PrintableIs(e: BackupEntry, part: nat)
    ensures Printable(e, part) <==> CanBeNamed(e, part)
    ensures Printable(e, part) ==> (forall s :: s == PartName(e, part) <==> IsNameOf(s, e, part))
  {
    assert IsId(e.chainId) ==> forall c :: c in e.chainId ==> IsBetween(c, 'A', 'Z') || IsBetween(c, '0', '9');
    assert CanBeNamed(e, part) ==> forall i :: 0 <= i < 6 ==> e.chainId[i] in e.chainId;
    hide Decimal;
  }

  /** A name is read as that of a part, or of a part being written, exactly when it
      is one: so two parts never share a name, and no other name is taken for a part. */
  lemma NamesExactly(s: string, e: BackupEntry, part: nat)
    ensures ParsePartFileName(s) == Some((e, part)) <==> IsNameOf(s, e, part)
    ensures ParseTempPartFileName(s) == Some((e, part)) <==> |s| >= 4 && s[|s| - 4..] == ".tmp" && IsNameOf(s[..|s| - 4], e, part)
  {
    hide *;
    PartNamesOnly(s, e, part);
    PrintableIs(e, part);
    NamedCanBe(s, e, part);
    if |s| >= 4 {
      NamedCanBe(s[..|s| - 4], e, part);
    }
    TempIsAppended(s, PartName(e, part));
  }

  lemma PartNamesOnly(s: string, e: BackupEntry, part: nat)
    ensures ParsePartFileName(s) == Some((e, part)) <==> Printable(e, part) && s == PartName(e, part)
    ensures ParseTempPartFileName(s) == Some((e, part)) <==> Printable(e, part) && s == PartName(e, part) + ".tmp"
  {
    PrintThenParse(e, part);
    if ParseAnyPartName(s).Some? {
      ParseThenPrint(s);
    }
    hide ParseAnyPartName, PartName, Printable;
  }

  lemma TempIsAppended(s: string, name: string)
    ensures s == name + ".tmp" <==> |s| >= 4 && s[|s| - 4..] == ".tmp" && s[..|s| - 4] == name
  {
    if |s| >= 4 {
      assert s == s[..|s| - 4] + s[|s| - 4..];
    }
  }

  lemma NamedCanBe(s: string, e: BackupEntry, part: nat)
    ensures IsNameOf(s, e, part) ==> CanBeNamed(e, part)
  {
  }

  // ---------------------------------------------------------- other files of the folder

  /** legacyFilePattern, read from the end: part and challenge files of RestoreSafe 1.x. */
  predicate IsLegacyBackupFileName(s: string) {
    var tailLen := if EndsWith(s, ".challenge") then 10 else 8;
    var k := |s| - tailLen;
    && k >= 21
    && s[0] == '[' && IsName(s[1..k - 19]) && s[k - 19..k - 17] == "]_"
    && IsDate(s[k - 17..k - 7]) && s[k - 7] == '_' && IsId(s[k - 6..k])
    && (tailLen == 10 || (s[k] == '-' && IsThreeDigits(s[k + 1..k + 4]) && s[k + 4..] == ".enc"))
  }

  function LogName(date: string, runId: string): string { date + "_" + runId + ".log" }

  function ParseLogFileName(s: string): Option<(string, string)> {
    if |s| == 21 && IsDate(s[..10]) && s[10] == '_' && IsId(s[11..17]) && s[17..] == ".log"
    then Some((s[..10], s[11..17])) else None
  }

  lemma LegacyPartNameMatches(name: string, date: string, id: string, digits: string)
    requires IsName(name) && IsDate(date) && IsId(id) && IsThreeDigits(digits)
    ensures IsLegacyBackupFileName("[" + name + "]_" + date + "_" + id + "-" + digits + ".enc")
  {
    var s, n := "[" + name + "]_" + date + "_" + id + "-" + digits + ".enc", |name|;
    assert s[1..1 + n] == name && s[1 + n..n + 3] == "]_" && s[n + 3..n + 13] == date && s[n + 14..n + 20] == id;
    assert s[n + 21..n + 24] == digits && s[n + 24..] == ".enc";
    assert s[|s| - 1] == 'c';
    hide IsName, IsDate, IsId, IsThreeDigits;
  }

  lemma LegacyChallengeNameMatches(name: string, date: string, id: string)
    requires IsName(name) && IsDate(date) && IsId(id)
    ensures IsLegacyBackupFileName("[" + name + "]_" + date + "_" + id + ".challenge")
  {
    var s, n := "[" + name + "]_" + date + "_" + id + ".challenge", |name|;
    assert s[1..1 + n] == name && s[1 + n..n + 3] == "]_" && s[n + 3..n + 13] == date && s[n + 14..n + 20] == id;
    assert s[n + 20..] == ".challenge";
    hide IsName, IsDate, IsId, IsThreeDigits;
  }

  /** Only such names are those of files of RestoreSafe 1.x. */
  lemma LegacyNamesOnly(s: string) returns (name: string, date: string, id: string, tail: string)
    requires IsLegacyBackupFileName(s)
    ensures s == "[" + name + "]_" + date + "_" + id + tail && IsName(name) && IsDate(date) && IsId(id)
    ensures tail == ".challenge" || (|tail| == 8 && tail[0] == '-' && IsThreeDigits(tail[1..4]) && tail[4..] == ".enc")
  {
    var k := |s| - if EndsWith(s, ".challenge") then 10 else 8;
    LegacyIs(s, k);
    name, date, id, tail := s[1..k - 19], s[k - 17..k - 7], s[k - 6..k], s[k..];
    hide *;
    SplitAt(s, 1, k - 19);
    SplitAt(s, k - 19, k - 17);
    SplitAt(s, k - 17, k - 7);
    SplitAt(s, k - 7, k - 6);
    SplitAt(s, k - 6, k);
    SplitAt(s, k, |s|);
  }

  lemma SplitAt(s: string, i: nat, j: nat)
    requires i <= j <= |s|
    ensures s[..j] == s[..i] + s[i..j]
    ensures s[..|s|] == s && s[j..|s|] == s[j..]
  {
  }

  lemma LegacyIs(s: string, k: int)
    requires IsLegacyBackupFileName(s) && k == |s| - if EndsWith(s, ".challenge") then 10 else 8
    ensures 21 <= k <= |s| && s[..1] == "[" && s[k - 19..k - 17] == "]_" && s[k - 7..k - 6] == "_"
    ensures IsName(s[1..k - 19]) && IsDate(s[k - 17..k - 7]) && IsId(s[k - 6..k])
    ensures s[k..] == ".challenge" || (|s[k..]| == 8 && s[k..][0] == '-' && IsThreeDigits(s[k..][1..4]) && s[k..][4..] == ".enc")
  {
    hide IsName, IsDate, IsId, IsThreeDigits;
    assert |s| - k == 8 ==> s[k..][1..4] == s[k + 1..k + 4];
  }

  /** A name is read as that of a log exactly when it is one. */
  lemma LogNameParses(s: string, date: string, runId: string)
    ensures ParseLogFileName(s) == Some((date, runId)) <==> IsDate(date) && IsId(runId) && s == date + "_" + runId + ".log"
    ensures LogName(date, runId) == date + "_" + runId + ".log"
  {
    if ParseLogFileName(s).Some? {
      assert s == s[..10] + [s[10]] + s[11..17] + s[17..] && [s[10]] == "_";
    }
    if IsDate(date) && IsId(runId) && s == LogName(date, runId) {
      assert s[..10] == date && s[11..17] == runId && s[17..] == ".log";
    }
  }

  lemma PartIsNotLegacy(g: Groups)
    requires g.WellFormed()
    ensures !IsLegacyBackupFileName(g.Text())
  {
    var s := g.Text();
    if g.temp {
      assert s[|s| - 1] == 'p';
    } else {
      assert s == g.Body() && s[|s| - 1] == 'c';
      BodyLayout(g);
      hide Groups.Body, Groups.WellFormed;
      if g.kind == "FULL" {
        assert s[|s| - 14..|s| - 8][1] == s[|g.name| + 20];
      } else {
        assert s[|s| - 15] == s[|g.name| + 21..|g.name| + 28][0];
      }
    }
  }

  /** No file name belongs to two of the four kinds of files. */
  lemma KindsDisjoint(s: string)
    ensures !(ParsePartFileName(s).Some? && ParseTempPartFileName(s).Some?)
    ensures ParseAnyPartName(s).Some? ==> !IsLegacyBackupFileName(s) && ParseLogFileName(s).None?
    ensures IsLegacyBackupFileName(s) ==> ParseLogFileName(s).None?
  {
    if ParseAnyPartName(s).Some? {
      PartIsNotLegacy(MatchPart(s).value);
      BodyLayout(MatchPart(s).value);
    }
    hide IsLegacyBackupFileName;
  }
}
