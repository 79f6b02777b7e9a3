/** The manifest: entries in walk order, the builder that collects them, and
    the rules a reader enforces. */
module Manifest {
  import opened Wrappers
  import Paths

  const VERSION: int := 1
  const HASH_ALG: string := "sha256"
  const SET_TYPE_FULL: string := "full"
  const SET_TYPE_DIFF: string := "diff"
  const ATTR_MASK: bv32 := 0x7

  datatype Header = Header(
    manifestVersion: int, setType: string, chainId: string, diffNumber: int, directoryName: string,
    sourcePath: string, hashAlg: string, exclude: seq<string>)

  /** Entry types "f", "d" and "s"; any other text is refused. */
  datatype Kind = FileKind | DirKind | SkippedKind | OtherKind(text: OtherType)

  type OtherType = s: string | s != "f" && s != "d" && s != "s"

  /** Origins "F" and "D", or none for an entry without content. */
  datatype Origin = NoOrigin | FullOrigin | DiffOrigin | OtherOrigin(text: OtherText)

  type OtherText = s: string | s != "" && s != "F" && s != "D" witness "?"

  datatype Entry = Entry(
    path: string, kind: Kind, size: int, modTime: int, changeTime: int, creationTime: int,
    attributes: bv32, hash: string, origin: Origin, offset: Option<int>, stale: bool, void_: bool, reason: string)
  {
    predicate HasContentInSet() { kind == FileKind && offset.Some? }
  }

  datatype Footer = Footer(
    end: bool, entries: nat, files: nat, dirs: nat, skipped: nat, stale: nat, totalBytes: int, dataBytes: int)

  datatype Manifest = Manifest(header: Header, entries: seq<Entry>, footer: Footer)

  function SkippedEntry(path: string, reason: string, isVoid: bool): Entry {
    Entry(path, SkippedKind, 0, 0, 0, 0, 0, "", NoOrigin, None, false, isVoid, reason)
  }

  // --------------------------------------------------------------------------- footer

  function AddToFooter(f: Footer, e: Entry): Footer {
    if e.kind == FileKind then
      f.(entries := f.entries + 1, files := f.files + 1, totalBytes := f.totalBytes + e.size,
         dataBytes := f.dataBytes + (if e.HasContentInSet() then e.size else 0),
         stale := f.stale + (if e.stale then 1 else 0))
    else if e.kind == DirKind then f.(entries := f.entries + 1, dirs := f.dirs + 1)
    else if e.kind == SkippedKind then f.(entries := f.entries + 1, skipped := f.skipped + 1)
    else f.(entries := f.entries + 1)
  }

  function FooterOf(entries: seq<Entry>): Footer {
    if |entries| == 0 then Footer(true, 0, 0, 0, 0, 0, 0, 0)
    else AddToFooter(FooterOf(entries[..|entries| - 1]), entries[|entries| - 1])
  }

  method ComputeFooter(entries: seq<Entry>) returns (f: Footer)
    ensures f == FooterOf(entries)
  {
    f := Footer(true, |entries|, 0, 0, 0, 0, 0, 0);
    for i := 0 to |entries|
      invariant f == FooterOf(entries[..i]).(entries := |entries|)
      invariant FooterOf(entries[..i]).entries == i
    {
      var e := entries[i];
      assert entries[..i + 1][..i] == entries[..i];
      if e.kind == FileKind {
        f := f.(files := f.files + 1, totalBytes := f.totalBytes + e.size);
        if e.HasContentInSet() {
          f := f.(dataBytes := f.dataBytes + e.size);
        }
        if e.stale {
          f := f.(stale := f.stale + 1);
        }
      } else if e.kind == DirKind {
        f := f.(dirs := f.dirs + 1);
      } else if e.kind == SkippedKind {
        f := f.(skipped := f.skipped + 1);
      }
    }
    assert entries[..|entries|] == entries;
  }

  // -------------------------------------------------------------------------- builder

  class Builder {
    const header: Header
    var entries: seq<Entry>

    constructor (h: Header)
      ensures header == h.(manifestVersion := VERSION, hashAlg := HASH_ALG) && entries == []
    {
      header := h.(manifestVersion := VERSION, hashAlg := HASH_ALG);
      entries := [];
    }

    method Add(e: Entry)
      modifies this
      ensures entries == old(entries) + [e]
    {
      entries := entries + [e];
    }

    /** Turns the last entry into a skipped one when it is the directory p. */
    method SkipLastDirectory(p: string, reason: string) returns (converted: bool)
      modifies this
      ensures converted <==> |old(entries)| > 0 && old(entries)[|old(entries)| - 1].path == p
                             && old(entries)[|old(entries)| - 1].kind == DirKind
      ensures entries == if converted then old(entries)[..|old(entries)| - 1] + [SkippedEntry(p, reason, false)]
                         else old(entries)
      ensures converted ==>
                var last := entries[|entries| - 1];
                last.kind == SkippedKind && last.path == p && last.reason == reason && HasNoContent(last) && !last.void_
    {
      var last := |entries| - 1;
      if last < 0 || entries[last].path != p || entries[last].kind != DirKind {
        return false;
      }
      entries := entries[last := SkippedEntry(p, reason, false)];
      return true;
    }
  }

  // ------------------------------------------------------------------------ validation

  function Fold(fold: char -> char, p: string): (r: string)
    ensures |r| == |p| && forall i :: 0 <= i < |p| ==> r[i] == fold(p[i])
  {
    seq(|p|, i requires 0 <= i < |p| => fold(p[i]))
  }

  /** Changing case keeps separators apart from all other characters. */
  ghost predicate Folding(fold: char -> char) { forall c :: fold(c) == '/' <==> c == '/' }

  predicate IsValidHash(h: string) {
    |h| == 64 && forall i :: 0 <= i < 64 ==> '0' <= h[i] <= '9' || 'a' <= h[i] <= 'f'
  }

  /** validateEntry. */
  predicate ValidateEntry(e: Entry, isDiff: bool) {
    && e.attributes & !ATTR_MASK == 0
    && (if e.kind == DirKind then
          e.size == 0 && e.hash == "" && e.origin == NoOrigin && e.offset.None? && !e.stale && !e.void_ && e.reason == ""
        else if e.kind == SkippedKind then
          e.reason != "" && e.size == 0 && e.hash == "" && e.origin == NoOrigin && e.offset.None? && !e.stale
        else if e.kind == FileKind then
          && e.size >= 0 && IsValidHash(e.hash) && e.reason == ""
          && (e.offset.Some? ==> e.offset.value >= 0)
          && (if e.origin == FullOrigin then
                !(!isDiff && (e.offset.None? || e.void_)) && !(isDiff && e.offset.Some?)
              else
                e.origin == DiffOrigin && isDiff && !(e.offset.None? || e.void_ || e.stale))
          && !(e.stale && (!isDiff || e.origin != FullOrigin))
          && !(e.void_ && !e.stale)
        else false)
  }

  /** Where the content of a file may be: here, in a full backup; here, in a
      differential; in the base; or in the base because it could not be read. */
  datatype Place = InFull | InDiff | InBase | StaleInBase

  predicate HasPlace(e: Entry, place: Place) {
    match place
    case InFull => e.origin == FullOrigin && e.offset.Some? && !e.stale && !e.void_
    case InDiff => e.origin == DiffOrigin && e.offset.Some? && !e.stale && !e.void_
    case InBase => e.origin == FullOrigin && e.offset.None? && !e.stale && !e.void_
    case StaleInBase => e.origin == FullOrigin && e.offset.None? && e.stale
  }

  predicate HasNoContent(e: Entry) { e.size == 0 && e.hash == "" && e.origin == NoOrigin && e.offset.None? && !e.stale }

  predicate IsHex(c: char) { '0' <= c <= '9' || 'a' <= c <= 'f' }

  /** What an entry may be: a directory, a skipped one with its reason, or a file
      with a hash and one of the combinations of origin, offset, stale and void, of
      which there are one in a full backup and three in a differential. */
  predicate IsEntry(e: Entry, isDiff: bool) {
    && e.attributes & 0xFFFF_FFF8 == 0
    && match e.kind
       case DirKind => HasNoContent(e) && !e.void_ && e.reason == ""
       case SkippedKind => HasNoContent(e) && e.reason != ""
       case FileKind =>
         && e.size >= 0 && e.reason == "" && |e.hash| == 64 && (forall c :: c in e.hash ==> IsHex(c))
         && (e.offset.Some? ==> e.offset.value >= 0)
         && (if isDiff then HasPlace(e, InDiff) || HasPlace(e, InBase) || HasPlace(e, StaleInBase) else HasPlace(e, InFull))
       case OtherKind(_) => false
  }

  lemma HashIs(h: string)
    ensures IsValidHash(h) <==> |h| == 64 && forall c :: c in h ==> IsHex(c)
  {
    if |h| == 64 && forall c :: c in h ==> IsHex(c) {
      assert forall i :: 0 <= i < 64 ==> h[i] in h;
    }
  }

  lemma MaskIs(a: bv32)
    ensures a & !ATTR_MASK == a & 0xFFFF_FFF8
  {
  }

  lemma EntriesExactly(e: Entry, isDiff: bool)
    ensures ValidateEntry(e, isDiff) <==> IsEntry(e, isDiff)
  {
    HashIs(e.hash);
    MaskIs(e.attributes);
    hide IsValidHash, IsHex, ATTR_MASK;
  }

  predicate ValidHeader(h: Header) {
    && h.manifestVersion == VERSION && h.hashAlg == HASH_ALG
    && (if h.setType == SET_TYPE_FULL then h.diffNumber == 0
        else h.setType == SET_TYPE_DIFF && 1 <= h.diffNumber <= 999)
    && h.chainId != "" && h.directoryName != ""
  }

  function FoldedBefore(fold: char -> char, entries: seq<Entry>, n: nat): set<string>
    requires n <= |entries|
  {
    set i | 0 <= i < n :: Fold(fold, entries[i].path)
  }

  function DirsBefore(entries: seq<Entry>, n: nat): set<string>
    requires n <= |entries|
  {
    set i | 0 <= i < n && entries[i].kind == DirKind :: entries[i].path
  }

  /** Entry i is acceptable after the entries before it: its path is clean and
      collides with none of theirs, and its directory is among them. */
  predicate EntryFits(fold: char -> char, entries: seq<Entry>, isDiff: bool, i: nat)
    requires i < |entries|
  {
    && Paths.ValidatePath(entries[i].path).None?
    && Fold(fold, entries[i].path) !in FoldedBefore(fold, entries, i)
    && (Paths.Dir(entries[i].path) == "." || Paths.Dir(entries[i].path) in DirsBefore(entries, i))
    && ValidateEntry(entries[i], isDiff)
  }

  ghost predicate ValidEntries(fold: char -> char, entries: seq<Entry>, isDiff: bool) {
    forall i :: 0 <= i < |entries| ==> EntryFits(fold, entries, isDiff, i)
  }

  ghost predicate ValidManifest(fold: char -> char, m: Manifest) {
    && ValidHeader(m.header)
    && ValidEntries(fold, m.entries, m.header.setType == SET_TYPE_DIFF)
    && m.footer == FooterOf(m.entries)
  }

  /** Version 1, SHA-256, and a full backup or one of 999 differentials. */
  predicate IsHeader(h: Header) {
    && h.manifestVersion == 1 && h.hashAlg == "sha256" && h.chainId != "" && h.directoryName != ""
    && ((h.setType == "full" && h.diffNumber == 0) || (h.setType == "diff" && 0 < h.diffNumber < 1000))
  }

  /** Its directory is the root, or a directory entry before it. */
  predicate IsListed(entries: seq<Entry>, i: nat)
    requires i < |entries|
  {
    var dir := Paths.Dir(entries[i].path);
    dir == "." || exists j :: 0 <= j < i && entries[j].kind == DirKind && entries[j].path == dir
  }

  predicate IsAlone(fold: char -> char, entries: seq<Entry>, i: nat)
    requires i < |entries|
  {
    forall j :: 0 <= j < i ==> Fold(fold, entries[j].path) != Fold(fold, entries[i].path)
  }

  /** The valid manifests: every entry is one of these, with a clean path, different
      from those before it also when case is folded, below a directory that comes
      before it; and the footer counts the entries. */
  lemma ManifestsExactly(fold: char -> char, m: Manifest)
    ensures ValidManifest(fold, m) <==>
            && IsHeader(m.header) && m.footer == FooterOf(m.entries)
            && forall i :: 0 <= i < |m.entries| ==>
                 && IsEntry(m.entries[i], m.header.setType == "diff") && Paths.ValidatePath(m.entries[i].path).None?
                 && IsAlone(fold, m.entries, i) && IsListed(m.entries, i)
  {
    forall i | 0 <= i < |m.entries|
      ensures EntryFits(fold, m.entries, m.header.setType == "diff", i) <==>
              && IsEntry(m.entries[i], m.header.setType == "diff") && Paths.ValidatePath(m.entries[i].path).None?
              && IsAlone(fold, m.entries, i) && IsListed(m.entries, i)
    {
      EntriesExactly(m.entries[i], m.header.setType == "diff");
      FitsExactly(fold, m.entries, m.header.setType == "diff", i);
    }
    HeadersExactly(m.header);
    hide ValidHeader, IsHeader, EntryFits, IsEntry, IsAlone, IsListed, FooterOf, Paths.ValidatePath;
  }

  lemma HeadersExactly(h: Header)
    ensures ValidHeader(h) <==> IsHeader(h)
    ensures SET_TYPE_DIFF == "diff"
  {
  }

  lemma FitsExactly(fold: char -> char, entries: seq<Entry>, isDiff: bool, i: nat)
    requires i < |entries|
    ensures EntryFits(fold, entries, isDiff, i) <==>
            && ValidateEntry(entries[i], isDiff) && Paths.ValidatePath(entries[i].path).None?
            && IsAlone(fold, entries, i) && IsListed(entries, i)
  {
    hide ValidateEntry, Paths.ValidatePath, Paths.Dir, Fold;
  }

  datatype Problem =
    | BadHeader | BadPath(pathError: Paths.PathError) | Duplicate | CaseCollision | NoParent | BadEntry | BadFooter

  lemma BeforeGrows(fold: char -> char, entries: seq<Entry>, i: nat)
    requires i < |entries|
    ensures FoldedBefore(fold, entries, i + 1) == FoldedBefore(fold, entries, i) + {Fold(fold, entries[i].path)}
    ensures DirsBefore(entries, i + 1) ==
            DirsBefore(entries, i) + (if entries[i].kind == DirKind then {entries[i].path} else {})
  {
  }

  /** The paths seen, by their folded form. */
  ghost predicate IsSeen(fold: char -> char, entries: seq<Entry>, i: nat, seenFolded: map<string, string>)
    requires i <= |entries|
  {
    && seenFolded.Keys == FoldedBefore(fold, entries, i)
    && (forall f :: f in seenFolded ==> exists j :: 0 <= j < i && Fold(fold, entries[j].path) == f && entries[j].path == seenFolded[f])
    && (forall j :: 0 <= j < i ==> IsAlone(fold, entries, j))
  }

  predicate HasTwin(entries: seq<Entry>, i: nat)
    requires i < |entries|
  {
    exists j :: 0 <= j < i && entries[j].path == entries[i].path
  }

  /** What is wrong with entry i. */
  predicate IsProblem(fold: char -> char, entries: seq<Entry>, isDiff: bool, i: nat, p: Problem)
    requires i < |entries|
  {
    match p
    case BadPath(error) => Paths.ValidatePath(entries[i].path) == Some(error)
    case Duplicate => Paths.ValidatePath(entries[i].path).None? && HasTwin(entries, i)
    case CaseCollision => Paths.ValidatePath(entries[i].path).None? && !IsAlone(fold, entries, i) && !HasTwin(entries, i)
    case NoParent => Paths.ValidatePath(entries[i].path).None? && IsAlone(fold, entries, i) && !IsListed(entries, i)
    case BadEntry =>
      && Paths.ValidatePath(entries[i].path).None? && IsAlone(fold, entries, i) && IsListed(entries, i)
      && !IsEntry(entries[i], isDiff)
    case _ => false
  }

  lemma TwinIs(fold: char -> char, entries: seq<Entry>, i: nat, seenFolded: map<string, string>)
    requires i < |entries| && IsSeen(fold, entries, i, seenFolded)
    ensures var folded := Fold(fold, entries[i].path);
            && (folded in seenFolded <==> !IsAlone(fold, entries, i))
            && (folded in seenFolded ==> (seenFolded[folded] == entries[i].path <==> HasTwin(entries, i)))
  {
    hide Fold;
    var folded := Fold(fold, entries[i].path);
    if folded in seenFolded {
      var j :| 0 <= j < i && Fold(fold, entries[j].path) == folded && entries[j].path == seenFolded[folded];
      if HasTwin(entries, i) {
        var k :| 0 <= k < i && entries[k].path == entries[i].path;
        assert IsAlone(fold, entries, j) && IsAlone(fold, entries, k);
        assert k == j;
      }
    }
  }

  lemma ListedIs(entries: seq<Entry>, i: nat)
    requires i < |entries|
    ensures var dir := Paths.Dir(entries[i].path); IsListed(entries, i) <==> dir == "." || dir in DirsBefore(entries, i)
  {
    hide Paths.Dir;
  }

  lemma SeenGrows(fold: char -> char, entries: seq<Entry>, i: nat, seenFolded: map<string, string>)
    requires i < |entries| && IsSeen(fold, entries, i, seenFolded) && IsAlone(fold, entries, i)
    ensures IsSeen(fold, entries, i + 1, seenFolded[Fold(fold, entries[i].path) := entries[i].path])
  {
    hide Fold;
    var folded := Fold(fold, entries[i].path);
    var seen := seenFolded[folded := entries[i].path];
    BeforeGrows(fold, entries, i);
    forall f | f in seen
      ensures exists j :: 0 <= j < i + 1 && Fold(fold, entries[j].path) == f && entries[j].path == seen[f]
    {
      if f == folded {
        assert Fold(fold, entries[i].path) == f && entries[i].path == seen[f];
      } else {
        assert f in seenFolded;
      }
    }
    hide FoldedBefore;
  }

  lemma EntryProblems(fold: char -> char, entries: seq<Entry>, isDiff: bool, i: nat, seenFolded: map<string, string>)
    requires i < |entries| && IsSeen(fold, entries, i, seenFolded)
    ensures var (path, folded) := (entries[i].path, Fold(fold, entries[i].path));
            var (error, dir) := (Paths.ValidatePath(path), Paths.Dir(path));
            if error.Some? then !EntryFits(fold, entries, isDiff, i) && IsProblem(fold, entries, isDiff, i, BadPath(error.value))
            else if folded in seenFolded then
              && !EntryFits(fold, entries, isDiff, i)
              && IsProblem(fold, entries, isDiff, i, if seenFolded[folded] == path then Duplicate else CaseCollision)
            else if dir != "." && dir !in DirsBefore(entries, i) then
              !EntryFits(fold, entries, isDiff, i) && IsProblem(fold, entries, isDiff, i, NoParent)
            else
              && (ValidateEntry(entries[i], isDiff) <==> EntryFits(fold, entries, isDiff, i))
              && (!ValidateEntry(entries[i], isDiff) ==> IsProblem(fold, entries, isDiff, i, BadEntry))
  {
    FitsExactly(fold, entries, isDiff, i);
    EntriesExactly(entries[i], isDiff);
    TwinIs(fold, entries, i, seenFolded);
    ListedIs(entries, i);
    ProblemsAre(fold, entries, isDiff, i);
    hide *;
  }

  lemma ProblemsAre(fold: char -> char, entries: seq<Entry>, isDiff: bool, i: nat)
    requires i < |entries|
    ensures var error := Paths.ValidatePath(entries[i].path);
            var (alone, twin) := (IsAlone(fold, entries, i), HasTwin(entries, i));
            var listed := IsListed(entries, i);
            && (error.Some? ==> IsProblem(fold, entries, isDiff, i, BadPath(error.value)))
            && (error.None? && twin ==> IsProblem(fold, entries, isDiff, i, Duplicate))
            && (error.None? && !alone && !twin ==> IsProblem(fold, entries, isDiff, i, CaseCollision))
            && (error.None? && alone && !listed ==> IsProblem(fold, entries, isDiff, i, NoParent))
            && (error.None? && alone && listed && !IsEntry(entries[i], isDiff) ==> IsProblem(fold, entries, isDiff, i, BadEntry))
  {
    hide IsEntry, IsAlone, HasTwin, Paths.ValidatePath, IsListed;
  }

  /** The body of the loop of Validate: what is wrong with entry i, given the
      folded paths and the directories of the entries before it. */
  method CheckEntry(fold: char -> char, entries: seq<Entry>, isDiff: bool, i: nat,
                    seenFolded: map<string, string>, dirs: set<string>) returns (problem: Option<Problem>)
    requires i < |entries|
    requires IsSeen(fold, entries, i, seenFolded) && dirs == DirsBefore(entries, i)
    ensures problem.None? <==> EntryFits(fold, entries, isDiff, i)
    ensures problem.Some? ==> IsProblem(fold, entries, isDiff, i, problem.value)
  {
    EntryProblems(fold, entries, isDiff, i, seenFolded);
    hide *;
    var e := entries[i];
    var pathError := Paths.ValidatePath(e.path);
    if pathError.Some? {
      return Some(BadPath(pathError.value));
    }
    var folded := Fold(fold, e.path);
    if folded in seenFolded {
      return Some(if seenFolded[folded] == e.path then Duplicate else CaseCollision);
    }
    var parent := Paths.Dir(e.path);
    if parent != "." && parent !in dirs {
      return Some(NoParent);
    }
    return if ValidateEntry(e, isDiff) then None else Some(BadEntry);
  }

  /** The first thing that is wrong with a manifest. */
  ghost predicate IsFirstProblem(fold: char -> char, m: Manifest, p: Problem) {
    var isDiff := m.header.setType == SET_TYPE_DIFF;
    match p
    case BadHeader => !IsHeader(m.header)
    case BadFooter => IsHeader(m.header) && ValidEntries(fold, m.entries, isDiff) && m.footer != FooterOf(m.entries)
    case _ =>
      && IsHeader(m.header)
      && exists i :: 0 <= i < |m.entries| && ValidEntries(fold, m.entries[..i], isDiff) && IsProblem(fold, m.entries, isDiff, i, p)
  }

  /** Manifest.Validate accepts exactly the valid manifests, and tells of any other
      the first thing that is wrong. */
  method Validate(fold: char -> char, m: Manifest) returns (problem: Option<Problem>)
    ensures problem.None? <==> ValidManifest(fold, m)
    ensures problem.Some? ==> IsFirstProblem(fold, m, problem.value)
  {
    hide *;
    ValidityUnfolds(fold, m);
    HeadersExactly(m.header);
    HeaderOrFooter(fold, m, m.header.setType == SET_TYPE_DIFF);
    if !ValidHeader(m.header) {
      return Some(BadHeader);
    }
    var isDiff := m.header.setType == SET_TYPE_DIFF;
    var seenFolded: map<string, string> := map[];
    var dirs: set<string> := {};
    NothingSeen(fold, m.entries);
    for i := 0 to |m.entries|
      invariant forall k :: 0 <= k < i ==> EntryFits(fold, m.entries, isDiff, k)
      invariant IsSeen(fold, m.entries, i, seenFolded) && dirs == DirsBefore(m.entries, i)
    {
      problem := CheckEntry(fold, m.entries, isDiff, i, seenFolded, dirs);
      if problem.Some? {
        FirstProblem(fold, m, isDiff, i, problem.value);
        return;
      }
      var e := m.entries[i];
      FitsExactly(fold, m.entries, isDiff, i);
      SeenGrows(fold, m.entries, i, seenFolded);
      seenFolded := seenFolded[Fold(fold, e.path) := e.path];
      if e.kind == DirKind {
        dirs := dirs + {e.path};
      }
      BeforeGrows(fold, m.entries, i);
    }
    var want := ComputeFooter(m.entries);
    return if m.footer != want then Some(BadFooter) else None;
  }

  lemma FirstProblem(fold: char -> char, m: Manifest, isDiff: bool, i: nat, p: Problem)
    requires isDiff == (m.header.setType == SET_TYPE_DIFF) && IsHeader(m.header)
    requires i < |m.entries| && IsProblem(fold, m.entries, isDiff, i, p)
    requires forall k :: 0 <= k < i ==> EntryFits(fold, m.entries, isDiff, k)
    ensures IsFirstProblem(fold, m, p)
  {
    PrefixFits(fold, m.entries, isDiff, i);
    assert !p.BadHeader? && !p.BadFooter?;
    hide IsHeader, IsProblem, EntryFits, FooterOf, ValidEntries;
  }

  lemma HeaderOrFooter(fold: char -> char, m: Manifest, isDiff: bool)
    requires isDiff == (m.header.setType == SET_TYPE_DIFF)
    ensures !IsHeader(m.header) ==> IsFirstProblem(fold, m, BadHeader)
    ensures IsHeader(m.header) && m.footer != FooterOf(m.entries)
            && (forall k :: 0 <= k < |m.entries| ==> EntryFits(fold, m.entries, isDiff, k)) ==>
              IsFirstProblem(fold, m, BadFooter)
  {
    hide IsHeader, EntryFits, FooterOf;
  }

  /** Fitting looks only at what comes before. */
  lemma PrefixFits(fold: char -> char, entries: seq<Entry>, isDiff: bool, n: nat)
    requires n <= |entries| && forall k :: 0 <= k < n ==> EntryFits(fold, entries, isDiff, k)
    ensures ValidEntries(fold, entries[..n], isDiff)
  {
    forall k | 0 <= k < n
      ensures EntryFits(fold, entries[..n], isDiff, k)
    {
      assert EntryFits(fold, entries, isDiff, k) && entries[..n][k] == entries[k];
      assert FoldedBefore(fold, entries[..n], k) == FoldedBefore(fold, entries, k);
      assert DirsBefore(entries[..n], k) == DirsBefore(entries, k);
    }
    hide EntryFits;
  }

  lemma ValidityUnfolds(fold: char -> char, m: Manifest)
    ensures var isDiff := m.header.setType == SET_TYPE_DIFF;
            ValidManifest(fold, m) <==>
            && ValidHeader(m.header) && m.footer == FooterOf(m.entries)
            && forall i :: 0 <= i < |m.entries| ==> EntryFits(fold, m.entries, isDiff, i)
  {
  }

  lemma BeforeNothing(fold: char -> char, entries: seq<Entry>)
    ensures FoldedBefore(fold, entries, 0) == {} && DirsBefore(entries, 0) == {}
  {
  }

  lemma NothingSeen(fold: char -> char, entries: seq<Entry>)
    ensures IsSeen(fold, entries, 0, map[]) && DirsBefore(entries, 0) == {}
  {
  }
}
