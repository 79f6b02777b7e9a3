/** The manifest as a text of lines: a header, the entries, a footer. How a line
    is written as JSON is a parameter. */
module ManifestCodec {
  import opened Wrappers
  import opened Binary
  import M = Manifest

  const NL: byte := 0x0A
  const CR: byte := 0x0D
  const MAX_LINE_BYTES: nat := 1024 * 1024
  const FOOTER_PREFIX: Bytes := [0x7B, 0x22, 0x65, 0x6E, 0x64, 0x22, 0x3A]  // {"end":

  /** The JSON encoder and the strict decoder of single lines. */
  datatype Lines = Lines(
    header: M.Header -> Bytes, entry: M.Entry -> Bytes, footer: M.Footer -> Bytes,
    readHeader: Bytes -> Option<M.Header>, readEntry: Bytes -> Option<M.Entry>, readFooter: Bytes -> Option<M.Footer>)
  {
    ghost predicate Valid() {
      && (forall h :: readHeader(header(h)) == Some(h) && IsLine(header(h)))
      && (forall e :: readEntry(entry(e)) == Some(e) && IsLine(entry(e)) && !(FOOTER_PREFIX <= entry(e)))
      && (forall f :: readFooter(footer(f)) == Some(f) && IsLine(footer(f)) && FOOTER_PREFIX <= footer(f))
      && (forall f, n: nat :: n < |footer(f)| ==> readFooter(footer(f)[..n]).None?)
    }
  }

  /** One line of text. */
  predicate IsLine(b: Bytes) { 0 < |b| && NL !in b && CR !in b }

  predicate IsShort(b: Bytes) { |b| < MAX_LINE_BYTES }

  predicate AreShort(c: Lines, entries: seq<M.Entry>) { forall i :: 0 <= i < |entries| ==> IsShort(c.entry(entries[i])) }

  /** All lines of the manifest are below the scanner's limit. */
  predicate HasShortLines(c: Lines, m: M.Manifest) {
    IsShort(c.header(m.header)) && AreShort(c, m.entries) && IsShort(c.footer(m.footer))
  }

  // ---------------------------------------------------------------------------- writing

  function EntryLines(c: Lines, entries: seq<M.Entry>): Bytes {
    if |entries| == 0 then [] else EntryLines(c, entries[..|entries| - 1]) + c.entry(entries[|entries| - 1]) + [NL]
  }

  function Encoded(c: Lines, m: M.Manifest): Bytes {
    c.header(m.header) + [NL] + EntryLines(c, m.entries) + c.footer(m.footer) + [NL]
  }

  /** Builder.Encode: nothing is written of a manifest that Validate refuses. */
  method Encode(c: Lines, fold: char -> char, b: M.Builder) returns (r: Option<Bytes>)
    ensures var m := M.Manifest(b.header, b.entries, M.FooterOf(b.entries));
            r == if M.ValidManifest(fold, m) then Some(Encoded(c, m)) else None
  {
    hide *;
    var footer := M.ComputeFooter(b.entries);
    var m := M.Manifest(b.header, b.entries, footer);
    var problem := M.Validate(fold, m);
    if problem.Some? {
      return None;
    }
    NoEntryLines(c);
    var out := c.header(m.header) + [NL];
    ghost var start := out;
    assert start + [] == start;
    for i := 0 to |m.entries|
      invariant out == start + EntryLines(c, m.entries[..i])
    {
      OneMoreLine(c, m.entries, i);
      assert start + EntryLines(c, m.entries[..i]) + c.entry(m.entries[i]) + [NL]
          == start + (EntryLines(c, m.entries[..i]) + c.entry(m.entries[i]) + [NL]);
      out := out + c.entry(m.entries[i]) + [NL];
    }
    assert m.entries[..|m.entries|] == m.entries;
    EncodedUnfolds(c, m);
    return Some(out + c.footer(m.footer) + [NL]);
  }

  lemma NoEntryLines(c: Lines)
    ensures EntryLines(c, []) == []
  {
  }

  lemma OneMoreLine(c: Lines, entries: seq<M.Entry>, i: nat)
    requires i < |entries|
    ensures EntryLines(c, entries[..i + 1]) == EntryLines(c, entries[..i]) + c.entry(entries[i]) + [NL]
    ensures entries[..0] == []
  {
    assert entries[..i + 1][..i] == entries[..i];
  }

  lemma EncodedUnfolds(c: Lines, m: M.Manifest)
    ensures Encoded(c, m) == c.header(m.header) + [NL] + EntryLines(c, m.entries) + c.footer(m.footer) + [NL]
  {
  }

  // ---------------------------------------------------------------------------- scanning

  /** How far the first line reaches. */
  function LineEnd(s: Bytes): (n: nat)
    ensures n <= |s| && NL !in s[..n] && (n < |s| ==> s[n] == NL)
  {
    if s == [] || s[0] == NL then 0
    else
      var n := 1 + LineEnd(s[1..]);
      assert s[..n] == [s[0]] + s[1..][..n - 1];
      n
  }

  function DropCR(line: Bytes): Bytes {
    if |line| > 0 && line[|line| - 1] == CR then line[..|line| - 1] else line
  }

  /** The lines a bufio.Scanner delivers, and whether it then stopped at a line that is too long. */
  datatype Scanned = Scanned(lines: seq<Bytes>, tooLong: bool)

  function Scan(s: Bytes): Scanned
    decreases |s|
  {
    if s == [] then Scanned([], false)
    else
      var n := LineEnd(s);
      if n >= MAX_LINE_BYTES then Scanned([], true)
      else if n == |s| then Scanned([DropCR(s)], false)
      else
        var rest := Scan(s[n + 1..]);
        Scanned([DropCR(s[..n])] + rest.lines, rest.tooLong)
  }

  lemma {:induction false} LineEndIs(line: Bytes, rest: Bytes)
    requires NL !in line
    ensures LineEnd(line + [NL] + rest) == |line| && LineEnd(line) == |line|
  {
    var s := line + [NL] + rest;
    if line != [] {
      assert s[1..] == line[1..] + [NL] + rest;
      LineEndIs(line[1..], rest);
    }
  }

  lemma ScanLine(line: Bytes, rest: Bytes)
    requires IsLine(line) && IsShort(line)
    ensures var later := Scan(rest); Scan(line + [NL] + rest) == Scanned([line] + later.lines, later.tooLong)
  {
    LineEndIs(line, rest);
    var s := line + [NL] + rest;
    assert s[..|line|] == line && s[|line| + 1..] == rest;
    hide LineEnd;
    assert line[|line| - 1] != CR;
  }

  /** A text is cut at its line feeds; one carriage return before each goes as well,
      and an empty rest is no line. It ends at the first line of a mebibyte or more. */
  lemma ScansExactly(line: Bytes, rest: Bytes)
    requires 0x0A !in line
    ensures Scan([]) == Scanned([], false)
    ensures var (text, later) := (if |line| > 0 && line[|line| - 1] == 0x0D then line[..|line| - 1] else line, Scan(rest));
            && (|line| < 0x10_0000 ==> Scan(line + [0x0A] + rest) == Scanned([text] + later.lines, later.tooLong))
            && (0 < |line| < 0x10_0000 ==> Scan(line) == Scanned([text], false))
            && (|line| >= 0x10_0000 ==> Scan(line) == Scan(line + [0x0A] + rest) == Scanned([], true))
  {
    LineEndIs(line, rest);
    var s := line + [NL] + rest;
    assert s[..|line|] == line && s[|line| + 1..] == rest;
    hide LineEnd;
  }

  lemma {:induction false} ScanEntries(c: Lines, entries: seq<M.Entry>, rest: Bytes)
    requires c.Valid() && AreShort(c, entries)
    ensures var later := Scan(rest);
            Scan(EntryLines(c, entries) + rest) == Scanned(Texts(c, entries) + later.lines, later.tooLong)
    decreases |entries|
  {
    hide Scan, IsLine;
    if |entries| == 0 {
      assert EntryLines(c, entries) + rest == rest;
      assert Texts(c, entries) + Scan(rest).lines == Scan(rest).lines;
    } else {
      var n := |entries| - 1;
      var last := c.entry(entries[n]);
      var tail := last + [NL] + rest;
      assert EntryLines(c, entries) + rest == EntryLines(c, entries[..n]) + tail;
      ScanEntries(c, entries[..n], tail);
      ScanLine(last, rest);
      assert Texts(c, entries) + Scan(rest).lines == Texts(c, entries[..n]) + ([last] + Scan(rest).lines);
    }
  }

  function Texts(c: Lines, entries: seq<M.Entry>): (r: seq<Bytes>)
    ensures |r| == |entries|
  {
    seq(|entries|, i requires 0 <= i < |entries| => c.entry(entries[i]))
  }

  /** What stands before the footer, and then anything. */
  lemma ScanHead(c: Lines, m: M.Manifest, rest: Bytes)
    requires c.Valid() && IsShort(c.header(m.header)) && AreShort(c, m.entries)
    ensures var later := Scan(rest);
            Scan(c.header(m.header) + [NL] + EntryLines(c, m.entries) + rest) ==
            Scanned([c.header(m.header)] + Texts(c, m.entries) + later.lines, later.tooLong)
  {
    hide Scan, IsLine;
    var h, after := c.header(m.header), EntryLines(c, m.entries) + rest;
    assert h + [NL] + EntryLines(c, m.entries) + rest == h + [NL] + after;
    ScanLine(h, after);
    ScanEntries(c, m.entries, rest);
    assert [h] + (Texts(c, m.entries) + Scan(rest).lines) == [h] + Texts(c, m.entries) + Scan(rest).lines;
  }

  // ----------------------------------------------------------------------------- reading

  /** These lines are those of the manifest: header, entries, footer and no more. */
  ghost predicate Reads(c: Lines, lines: seq<Bytes>, m: M.Manifest) {
    && |lines| == |m.entries| + 2
    && c.readHeader(lines[0]) == Some(m.header)
    && (forall i :: 0 <= i < |m.entries| ==> IsEntryLine(c, lines[i + 1], m.entries[i]))
    && FOOTER_PREFIX <= lines[|lines| - 1] && c.readFooter(lines[|lines| - 1]) == Some(m.footer)
  }

  predicate IsEntryLine(c: Lines, line: Bytes, e: M.Entry) {
    !(FOOTER_PREFIX <= line) && c.readEntry(line) == Some(e)
  }

  /** What line i is when the lines are those of a manifest. */
  predicate HasRole(c: Lines, lines: seq<Bytes>, i: nat)
    requires i < |lines|
  {
    if i == 0 then c.readHeader(lines[i]).Some?
    else if i == |lines| - 1 then FOOTER_PREFIX <= lines[i] && c.readFooter(lines[i]).Some?
    else !(FOOTER_PREFIX <= lines[i]) && c.readEntry(lines[i]).Some?
  }

  lemma Roles(c: Lines, lines: seq<Bytes>, i: nat)
    requires i < |lines| && (exists m :: Reads(c, lines, m))
    ensures |lines| >= 2 && HasRole(c, lines, i)
  {
    var m :| Reads(c, lines, m);
    if 0 < i < |lines| - 1 {
      assert IsEntryLine(c, lines[i - 1 + 1], m.entries[i - 1]);
    }
  }

  datatype DecodeError =
    | AfterFooter | BadHeaderLine | BadFooterLine | BadEntryLine | ReadFailed | EmptyManifest | MissingFooter | Invalid

  datatype Result = Decoded(manifest: M.Manifest) | Refused(error: DecodeError)

  /** A footer line begins with {"end": and no other line after the header does. */
  predicate IsEnd(line: Bytes) {
    |line| >= 7 && forall i :: 0 <= i < 7 ==> line[i] == "{\"end\":"[i] as int
  }

  lemma EndIsPrefix(line: Bytes)
    ensures IsEnd(line) <==> FOOTER_PREFIX <= line
  {
    if IsEnd(line) {
      assert line[..7] == FOOTER_PREFIX;
    }
  }

  /** The first n lines are a header and entries. */
  predicate IsBody(c: Lines, lines: seq<Bytes>, n: nat)
    requires n <= |lines|
  {
    && (n > 0 ==> c.readHeader(lines[0]).Some?)
    && forall i :: 1 <= i < n ==> !IsEnd(lines[i]) && c.readEntry(lines[i]).Some?
  }

  /** What is wrong with the first line that is not as it must be. */
  ghost predicate IsWrong(c: Lines, lines: seq<Bytes>, e: DecodeError) {
    match e
    case EmptyManifest => lines == []
    case BadHeaderLine => lines != [] && c.readHeader(lines[0]).None?
    case BadEntryLine =>
      exists i :: 1 <= i < |lines| && IsBody(c, lines, i) && !IsEnd(lines[i]) && c.readEntry(lines[i]).None?
    case BadFooterLine =>
      exists i :: 1 <= i < |lines| && IsBody(c, lines, i) && IsEnd(lines[i]) && c.readFooter(lines[i]).None?
    case AfterFooter =>
      exists i :: 1 <= i < |lines| - 1 && IsBody(c, lines, i) && IsEnd(lines[i]) && c.readFooter(lines[i]).Some?
    case MissingFooter => lines != [] && IsBody(c, lines, |lines|)
    case _ => false
  }

  /** The loop of Decode, given all lines: how far it got before the footer. */
  method ReadLines(c: Lines, lines: seq<Bytes>) returns (r: Result)
    ensures r.Decoded? ==> Reads(c, lines, r.manifest)
    ensures r.Decoded? ==> |lines| >= 2 && IsBody(c, lines, |lines| - 1) && IsEnd(lines[|lines| - 1])
    ensures r.Refused? ==> IsWrong(c, lines, r.error) && forall m :: !Reads(c, lines, m)
  {
    var header: Option<M.Header>, footer: Option<M.Footer> := None, None;
    var entries: seq<M.Entry> := [];
    for i := 0 to |lines|
      invariant header.Some? <==> i > 0
      invariant header.Some? ==> c.readHeader(lines[0]) == header
      invariant footer.Some? ==>
                  i > 1 && FOOTER_PREFIX <= lines[i - 1] && c.readFooter(lines[i - 1]) == footer
      invariant header.Some? ==> |entries| == i - 1 - (if footer.Some? then 1 else 0)
      invariant header.None? ==> |entries| == 0
      invariant forall k :: 0 <= k < |entries| ==> IsEntryLine(c, lines[k + 1], entries[k])
      invariant footer.None? ==> IsBody(c, lines, i)
      invariant footer.Some? ==> IsBody(c, lines, i - 1) && IsEnd(lines[i - 1])
    {
      var line := lines[i];
      EndIsPrefix(line);
      if exists m :: Reads(c, lines, m) {
        Roles(c, lines, i);
        if i > 0 {
          Roles(c, lines, i - 1);
        }
      }
      if footer.Some? {
        return Refused(AfterFooter);
      }
      if header.None? {
        header := c.readHeader(line);
        if header.None? {
          return Refused(BadHeaderLine);
        }
      } else if FOOTER_PREFIX <= line {
        footer := c.readFooter(line);
        if footer.None? {
          return Refused(BadFooterLine);
        }
      } else {
        var e := c.readEntry(line);
        if e.None? {
          return Refused(BadEntryLine);
        }
        entries := entries + [e.value];
      }
    }
    if |lines| > 0 && exists m :: Reads(c, lines, m) {
      Roles(c, lines, |lines| - 1);
      assert |entries| > 0 ==> IsEntryLine(c, lines[|entries| - 1 + 1], entries[|entries| - 1]);
    }
    if header.None? {
      return Refused(EmptyManifest);
    }
    if footer.None? {
      return Refused(MissingFooter);
    }
    return Decoded(M.Manifest(header.value, entries, footer.value));
  }

  /** Decode: the manifest whose lines the text has, if there is one and Validate accepts it. */
  method Decode(c: Lines, fold: char -> char, s: Bytes) returns (r: Result)
    ensures r.Decoded? ==> !Scan(s).tooLong && Reads(c, Scan(s).lines, r.manifest) && M.ValidManifest(fold, r.manifest)
    ensures r.Decoded? ==> |Scan(s).lines| >= 2 && IsBody(c, Scan(s).lines, |Scan(s).lines| - 1) && IsEnd(Scan(s).lines[|Scan(s).lines| - 1])
    ensures r.Refused? ==> Scan(s).tooLong || forall m :: Reads(c, Scan(s).lines, m) ==> !M.ValidManifest(fold, m)
    ensures r.Refused? && r.error != ReadFailed && r.error != Invalid ==> IsWrong(c, Scan(s).lines, r.error)
  {
    hide Scan, M.ValidManifest;
    var scanned := Scan(s);
    r := ReadLines(c, scanned.lines);
    if r.Refused? {
      return;
    }
    if scanned.tooLong {
      return Refused(ReadFailed);
    }
    ReadsOne(c, scanned.lines);
    var problem := M.Validate(fold, r.manifest);
    if problem.Some? {
      return Refused(Invalid);
    }
  }

  /** Lines are those of one manifest at most. */
  lemma ReadsOne(c: Lines, lines: seq<Bytes>)
    ensures forall m, m' :: Reads(c, lines, m) && Reads(c, lines, m') ==> m == m'
  {
    forall m, m' | Reads(c, lines, m) && Reads(c, lines, m')
      ensures m == m'
    {
      forall i | 0 <= i < |m.entries|
        ensures m.entries[i] == m'.entries[i]
      {
        assert IsEntryLine(c, lines[i + 1], m.entries[i]) && IsEntryLine(c, lines[i + 1], m'.entries[i]);
      }
      assert m.entries == m'.entries;
    }
  }

  /** A manifest that was written is what is read back. */
  lemma DecodesEncoded(c: Lines, m: M.Manifest)
    requires c.Valid() && HasShortLines(c, m)
    ensures !Scan(Encoded(c, m)).tooLong && Reads(c, Scan(Encoded(c, m)).lines, m)
    ensures forall m' :: Reads(c, Scan(Encoded(c, m)).lines, m') ==> m' == m
  {
    hide Scan, EntryLines, IsLine;
    var f := c.footer(m.footer);
    ScanLine(f, []);
    assert f + [NL] + [] == f + [NL];
    EncodedUnfolds(c, m);
    assert Encoded(c, m) == c.header(m.header) + [NL] + EntryLines(c, m.entries) + (f + [NL]);
    ScanHead(c, m, f + [NL]);
    ScanNothing();
    LinesRead(c, m);
    ReadsOne(c, Scan(Encoded(c, m)).lines);
  }

  lemma ScanNothing()
    ensures Scan([]) == Scanned([], false)
  {
  }

  lemma LinesRead(c: Lines, m: M.Manifest)
    requires c.Valid()
    ensures Reads(c, [c.header(m.header)] + Texts(c, m.entries) + [c.footer(m.footer)], m)
    ensures Reads(c, [c.header(m.header)] + Texts(c, m.entries) + ([c.footer(m.footer)] + []), m)
  {
    var lines := [c.header(m.header)] + Texts(c, m.entries) + [c.footer(m.footer)];
    forall i | 0 <= i < |m.entries|
      ensures IsEntryLine(c, lines[i + 1], m.entries[i])
    {
      assert lines[i + 1] == c.entry(m.entries[i]);
    }
    assert [c.footer(m.footer)] + [] == [c.footer(m.footer)];
  }

  // -------------------------------------------------------------------------- truncation

  /** A text cut off before its last line break is not read as any manifest,
      exactly: only the line break itself may be missing. */
  lemma TruncatedManifest(c: Lines, m: M.Manifest, n: nat)
    requires c.Valid() && HasShortLines(c, m) && n < |Encoded(c, m)|
    ensures (exists m' :: Reads(c, Scan(Encoded(c, m)[..n]).lines, m') && !Scan(Encoded(c, m)[..n]).tooLong)
            <==> n == |Encoded(c, m)| - 1
  {
    hide *;
    EncodedUnfolds(c, m);
    CodecUnfolds(c, m.footer);
    var head, f := c.header(m.header) + [NL] + EntryLines(c, m.entries), c.footer(m.footer);
    var s := Encoded(c, m)[..n];
    if n == |Encoded(c, m)| - 1 {
      assert s == head + f;
      CutLineBreak(c, m);
    } else if n > |head| {
      assert s == head + f[..n - |head|];
      CutFooter(c, m, n - |head|);
    } else {
      assert s == head[..n];
      CutHead(c, m, n);
    }
  }

  lemma CodecUnfolds(c: Lines, f: M.Footer)
    requires c.Valid()
    ensures IsLine(c.footer(f)) && FOOTER_PREFIX <= c.footer(f) && c.readFooter(c.footer(f)) == Some(f)
    ensures forall n: nat :: n < |c.footer(f)| ==> c.readFooter(c.footer(f)[..n]).None?
  {
  }

  lemma CutLineBreak(c: Lines, m: M.Manifest)
    requires c.Valid() && HasShortLines(c, m)
    ensures var s := c.header(m.header) + [NL] + EntryLines(c, m.entries) + c.footer(m.footer);
            Reads(c, Scan(s).lines, m) && !Scan(s).tooLong
  {
    var f := c.footer(m.footer);
    ScanPart(f, |f|);
    assert f[..|f|] == f;
    hide Scan, EntryLines, IsLine;
    ScanHead(c, m, f);
    LinesRead(c, m);
  }

  lemma CutFooter(c: Lines, m: M.Manifest, k: nat)
    requires c.Valid() && HasShortLines(c, m) && 0 < k < |c.footer(m.footer)|
    ensures var s := c.header(m.header) + [NL] + EntryLines(c, m.entries) + c.footer(m.footer)[..k];
            forall m' :: !Reads(c, Scan(s).lines, m')
  {
    var f := c.footer(m.footer)[..k];
    ScanHead(c, m, f);
    LineEndIs(f, []);
    assert CR !in f;
    assert Scan(f) == Scanned([f], false);
    hide Scan, EntryLines, IsLine;
  }

  predicate NoFooters(lines: seq<Bytes>) { forall i :: 0 <= i < |lines| ==> !(FOOTER_PREFIX <= lines[i]) }

  /** A text without line breaks is one line, or none. */
  lemma ScanPart(line: Bytes, k: nat)
    requires IsLine(line) && IsShort(line) && k <= |line|
    ensures Scan(line[..k]) == Scanned(if k == 0 then [] else [line[..k]], false)
  {
    LineEndIs(line[..k], []);
    assert CR !in line[..k];
    hide LineEnd;
  }

  lemma PartIsNoFooter(c: Lines, e: M.Entry, k: nat)
    requires c.Valid() && k <= |c.entry(e)|
    ensures !(FOOTER_PREFIX <= c.entry(e)[..k]) && IsLine(c.entry(e))
  {
    PrefixOfPart(FOOTER_PREFIX, c.entry(e), k);
  }

  lemma PrefixOfPart(p: Bytes, line: Bytes, k: nat)
    requires k <= |line|
    ensures p <= line[..k] ==> p <= line
  {
    if p <= line[..k] {
      assert line[..|p|] == line[..k][..|p|];
    }
  }

  lemma CutLine(c: Lines, e: M.Entry, k: nat)
    requires c.Valid() && IsShort(c.entry(e)) && k <= |c.entry(e)| + 1
    ensures NoFooters(Scan((c.entry(e) + [NL])[..k]).lines)
  {
    var line := c.entry(e);
    PartIsNoFooter(c, e, if k <= |line| then k else |line|);
    hide Lines.Valid, IsLine;
    if k <= |line| {
      assert (line + [NL])[..k] == line[..k];
      ScanPart(line, k);
    } else {
      assert (line + [NL])[..k] == line + [NL] + [] && line[..|line|] == line;
      ScanLine(line, []);
      assert Scan([]) == Scanned([], false);
    }
    hide Scan, FOOTER_PREFIX;
  }

  lemma {:induction false} CutEntries(c: Lines, entries: seq<M.Entry>, n: nat)
    requires c.Valid() && AreShort(c, entries) && n <= |EntryLines(c, entries)|
    ensures NoFooters(Scan(EntryLines(c, entries)[..n]).lines)
    decreases |entries|
  {
    if |entries| == 0 {
      assert EntryLines(c, entries)[..n] == [];
      assert Scan([]) == Scanned([], false);
    } else {
      var last := |entries| - 1;
      var before, line := EntryLines(c, entries[..last]), c.entry(entries[last]) + [NL];
      assert EntryLines(c, entries) == before + line;
      if n <= |before| {
        assert (before + line)[..n] == before[..n];
        CutEntries(c, entries[..last], n);
      } else {
        var k := n - |before|;
        assert (before + line)[..n] == before + line[..k];
        ScanEntries(c, entries[..last], line[..k]);
        CutLine(c, entries[last], k);
        TextsHaveNoFooters(c, entries[..last]);
        hide *;
        NoFootersConcat(Texts(c, entries[..last]), Scan(line[..k]).lines);
      }
    }
  }

  lemma TextsHaveNoFooters(c: Lines, entries: seq<M.Entry>)
    requires c.Valid()
    ensures NoFooters(Texts(c, entries))
  {
  }

  lemma NoFootersConcat(a: seq<Bytes>, b: seq<Bytes>)
    requires NoFooters(a) && NoFooters(b)
    ensures NoFooters(a + b)
  {
  }

  lemma NoFooterNoManifest(c: Lines, first: Bytes, lines: seq<Bytes>)
    requires NoFooters(lines)
    ensures forall m :: !Reads(c, [first] + lines, m) && !Reads(c, [], m)
  {
    forall m
      ensures !Reads(c, [first] + lines, m)
    {
      if |lines| > 0 {
        assert ([first] + lines)[|lines|] == lines[|lines| - 1];
      }
    }
  }

  lemma CutHead(c: Lines, m: M.Manifest, n: nat)
    requires c.Valid() && HasShortLines(c, m) && n <= |c.header(m.header) + [NL] + EntryLines(c, m.entries)|
    ensures forall m' :: !Reads(c, Scan((c.header(m.header) + [NL] + EntryLines(c, m.entries))[..n]).lines, m')
  {
    var h := c.header(m.header);
    var s := (h + [NL] + EntryLines(c, m.entries))[..n];
    hide Lines.Valid, EntryLines, Scan, Reads, NoFooters;
    if n <= |h| {
      assert s == h[..n];
      HeaderIsLine(c, m.header);
      ScanPart(h, n);
      NothingIsNoFooter();
      NoFooterNoManifest(c, h[..n], []);
      assert [h[..n]] + [] == [h[..n]];
    } else {
      var k := n - |h| - 1;
      assert s == h + [NL] + EntryLines(c, m.entries)[..k];
      HeaderIsLine(c, m.header);
      ScanLine(h, EntryLines(c, m.entries)[..k]);
      CutEntries(c, m.entries, k);
      NoFooterNoManifest(c, h, Scan(EntryLines(c, m.entries)[..k]).lines);
    }
  }

  lemma HeaderIsLine(c: Lines, h: M.Header)
    requires c.Valid()
    ensures IsLine(c.header(h))
  {
  }

  lemma NothingIsNoFooter()
    ensures NoFooters([])
  {
  }
}
