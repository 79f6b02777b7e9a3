/** Opening a set by the names of its parts, and what that finds when a backup
    was interrupted while its parts got their final names. */
module Inventory {
  import opened Wrappers
  import opened Binary
  import opened Naming
  import opened Commit
  import opened Catalog
  import opened EndToEnd
  import C = Container
  import H = SetHeader
  import P = Split

  /** The names that os.ReadDir gives for these files. */
  ghost predicate Lists(names: seq<string>, files: Files) {
    && (forall x :: x in names <==> x in files)
    && (forall i, j :: 0 <= i < j < |names| ==> names[i] != names[j])
  }

  /** CollectParts. */
  function PartsOf(names: seq<string>, e: BackupEntry): seq<Found> { SortByPart(PartsAmong(names, e)) }

  function Numbers(found: seq<Found>): (r: seq<nat>)
    ensures |r| == |found| && forall i :: 0 <= i < |r| ==> r[i] == found[i].part
  {
    seq(|found|, i requires 0 <= i < |found| => found[i].part)
  }

  /** What the files of these parts hold. */
  function Contents(files: Files, found: seq<Found>): (r: seq<Bytes>)
    requires forall x :: x in found ==> x.name in files
    ensures |r| == |found| && forall i :: 0 <= i < |r| ==> r[i] == files[found[i].name]
  {
    seq(|found|, i requires 0 <= i < |found| => assert found[i] in found; files[found[i].name])
  }

  /** The parts 1 to k and nothing else. */
  ghost predicate IsWhole(e: BackupEntry, found: seq<Found>, k: nat) {
    |found| == k && forall i :: 0 <= i < k ==> found[i] == Found(i + 1, PartName(e, i + 1))
  }

  /** checkNameMatchesHeader. */
  predicate NameMatches(e: BackupEntry, h: H.Header) {
    && h.directoryName == e.directoryName && h.chainId == e.chainId && h.date == e.date
    && h.diffNumber == e.diffNumber && (h.IsDiff() <==> e.IsDiff())
  }

  datatype SetOpening =
    | NotContinuous(reason: Continuity) | NotOpened(error: C.OpenError) | NameMismatch
    | SetOpened(set_: C.OpenedSet, parts: seq<Bytes>)

  /** The parts of the entry are the parts 1 to some number, their joined bytes pass
      the structural check, and the header has the fields of the name. */
  ghost predicate Opens(f: C.Format, files: Files, names: seq<string>, e: BackupEntry)
    requires forall x :: x in PartsOf(names, e) ==> x.name in files
  {
    var found := PartsOf(names, e);
    var opening := C.Open(f, P.Join(Contents(files, found)), |found|);
    found != [] && IsWhole(e, found, |found|) && opening.Opened? && NameMatches(e, opening.set_.header)
  }

  lemma OpensIs(f: C.Format, files: Files, names: seq<string>, e: BackupEntry)
    requires forall x :: x in PartsOf(names, e) ==> x.name in files
    ensures var found := PartsOf(names, e);
            var opening := C.Open(f, P.Join(Contents(files, found)), |found|);
            Opens(f, files, names, e) <==>
            found != [] && IsWhole(e, found, |found|) && opening.Opened? && NameMatches(e, opening.set_.header)
  {
    hide C.Open, PartsOf, IsWhole, NameMatches, P.Join;
  }

  /** One field of the header is not what the names of the parts say. */
  predicate NameDiffers(e: BackupEntry, h: H.Header) {
    || h.directoryName != e.directoryName || h.chainId != e.chainId || h.date != e.date
    || h.diffNumber != e.diffNumber || (h.setType == "diff" && e.diffNumber <= 0) || (h.setType != "diff" && e.diffNumber > 0)
  }

  /** Why the parts found were refused, or what they hold. */
  ghost predicate IsAnswer(f: C.Format, e: BackupEntry, found: seq<Found>, parts: seq<Bytes>, r: SetOpening) {
    match r
    case NotContinuous(_) => found == [] || exists i :: 0 <= i < |found| && found[i].part != i + 1
    case NotOpened(error) => IsWhole(e, found, |found|) && C.Open(f, P.Join(parts), |parts|) == C.OpenFailed(error)
    case NameMismatch =>
      && IsWhole(e, found, |found|) && C.Open(f, P.Join(parts), |parts|).Opened?
      && NameDiffers(e, C.Open(f, P.Join(parts), |parts|).set_.header)
    case SetOpened(set_, read) => read == parts && C.Open(f, P.Join(parts), |parts|) == C.Opened(set_) && !NameDiffers(e, set_.header)
  }

  lemma NameDiffersIs(e: BackupEntry, h: H.Header)
    ensures NameDiffers(e, h) <==> !NameMatches(e, h)
  {
  }

  lemma AnswerIs(f: C.Format, e: BackupEntry, found: seq<Found>, parts: seq<Bytes>, r: SetOpening)
    requires r.NotContinuous? ==> found == [] || exists i :: 0 <= i < |found| && found[i].part != i + 1
    requires !r.NotContinuous? ==> IsWhole(e, found, |found|)
    requires r.NotOpened? ==> C.Open(f, P.Join(parts), |parts|) == C.OpenFailed(r.error)
    requires r.NameMismatch? ==>
               C.Open(f, P.Join(parts), |parts|).Opened? && !NameMatches(e, C.Open(f, P.Join(parts), |parts|).set_.header)
    requires r.SetOpened? ==>
               r.parts == parts && C.Open(f, P.Join(parts), |parts|) == C.Opened(r.set_) && NameMatches(e, r.set_.header)
    ensures IsAnswer(f, e, found, parts, r)
  {
    hide C.Open, P.Join, NameMatches, NameDiffers;
    match r
    case NameMismatch => NameDiffersIs(e, C.Open(f, P.Join(parts), |parts|).set_.header);
    case SetOpened(set_, _) => NameDiffersIs(e, set_.header);
    case _ =>
  }

  /** OpenSet: the parts of an entry in a listed directory are opened exactly then. */
  method OpenSet(f: C.Format, files: Files, names: seq<string>, e: BackupEntry) returns (r: SetOpening)
    requires Lists(names, files)
    ensures forall x :: x in PartsOf(names, e) ==> x.name in files
    ensures r.SetOpened? <==> Opens(f, files, names, e)
    ensures r.SetOpened? ==>
              && r.parts == Contents(files, PartsOf(names, e))
              && C.Open(f, P.Join(r.parts), |r.parts|) == C.Opened(r.set_)
    ensures IsAnswer(f, e, PartsOf(names, e), Contents(files, PartsOf(names, e)), r)
  {
    hide *;
    FoundAreThere(files, names, e);
    OpensIs(f, files, names, e);
    var all := ListParts(names);
    var found := if e in all then all[e] else [];
    NothingAmong(names, e);
    WholeIff(names, e);
    var continuity := CheckContinuity(Numbers(found));
    if continuity != Continuous {
      r := NotContinuous(continuity);
      AnswerIs(f, e, found, Contents(files, found), r);
      return;
    }
    var parts := Contents(files, found);
    match C.Open(f, P.Join(parts), |parts|) {
      case OpenFailed(error) => r := NotOpened(error);
      case Opened(set_) => r := if NameMatches(e, set_.header) then SetOpened(set_, parts) else NameMismatch;
    }
    AnswerIs(f, e, found, parts, r);
  }

  lemma NothingAmong(names: seq<string>, e: BackupEntry)
    ensures PartsOf(names, e) == SortByPart(PartsAmong(names, e))
    ensures PartsAmong(names, e) == [] ==> PartsOf(names, e) == []
  {
  }

  lemma FoundAreThere(files: Files, names: seq<string>, e: BackupEntry)
    requires Lists(names, files)
    ensures forall x :: x in PartsOf(names, e) ==> x.name in files
    ensures forall i, j :: 0 <= i < j < |names| ==> names[i] != names[j]
  {
    PartsFound(names, e);
    hide SortByPart, PartsAmong, PartName, Printable;
  }

  /** Numbers without a gap make the parts of the set. */
  lemma WholeIff(names: seq<string>, e: BackupEntry)
    requires forall i, j :: 0 <= i < j < |names| ==> names[i] != names[j]
    ensures var found := PartsOf(names, e);
            && (forall i :: 0 <= i < |found| ==> found[i].part >= 1)
            && (forall i, j :: 0 <= i < j < |found| ==> found[i].part < found[j].part)
            && (IsWhole(e, found, |found|) <==> forall i :: 0 <= i < |found| ==> found[i].part == i + 1)
  {
    PartsFound(names, e);
    var found := PartsOf(names, e);
    hide SortByPart, PartsAmong, PartName;
    forall i | 0 <= i < |found|
      ensures found[i].name == PartName(e, found[i].part) && found[i].part >= 1
    {
      assert found[i] in found;
    }
  }

  predicate HasPart(found: seq<Found>, n: nat) { exists i :: 0 <= i < |found| && found[i].part == n }

  lemma NoneBelowOne(found: seq<Found>, k: nat)
    requires forall i :: 0 <= i < |found| ==> 1 <= found[i].part <= k
    ensures |found| > 0 ==> 1 <= found[0].part <= k
  {
  }

  /** Ascending numbers that are those from 1 to k. */
  lemma {:induction false} Consecutive(found: seq<Found>, k: nat)
    requires Ascending(found)
    requires forall i :: 0 <= i < |found| ==> 1 <= found[i].part <= k
    requires forall n: nat :: 1 <= n <= k ==> HasPart(found, n)
    ensures |found| == k && forall i :: 0 <= i < k ==> found[i].part == i + 1
  {
    NoneBelowOne(found, k);
    if k > 0 {
      assert HasPart(found, k);
      var top :| 0 <= top < |found| && found[top].part == k;
      var last := |found| - 1;
      assert found[top].part <= found[last].part;
      forall n: nat | 1 <= n <= k - 1
        ensures HasPart(found[..last], n)
      {
        assert HasPart(found, n);
        var i :| 0 <= i < |found| && found[i].part == n;
        assert found[..last][i].part == n;
      }
      Consecutive(found[..last], k - 1);
    }
  }

  /** The parts of a written set, all of them under their temporary names. */
  ghost predicate AreTemporary(files: Files, e: BackupEntry, parts: seq<Bytes>) {
    IsWritten(files, e, |parts|) && forall i :: 0 <= i < |parts| ==> IsTemporary(files, e, i, parts[i])
  }

  predicate IsTemporary(files: Files, e: BackupEntry, i: nat, content: Bytes) {
    TempName(e, i + 1) in files && files[TempName(e, i + 1)] == content
  }

  /** Wherever finalizing stops, discovery finds exactly the parts that have been
      renamed, with their content. */
  lemma FoundAtStop(before: Files, e: BackupEntry, parts: seq<Bytes>, k: nat, names: seq<string>)
    requires AreTemporary(before, e, parts) && k <= |parts|
    requires Lists(names, Renamed(before, TempParts(e, |parts|), k))
    ensures IsWhole(e, PartsOf(names, e), k)
    ensures forall x :: x in PartsOf(names, e) ==> x.name in Renamed(before, TempParts(e, |parts|), k)
    ensures Contents(Renamed(before, TempParts(e, |parts|), k), PartsOf(names, e)) == parts[..k]
  {
    hide *;
    var n := |parts|;
    SizeOfParts(e, n);
    var files := Renamed(before, TempParts(e, n), k);
    TemporaryIsWritten(before, e, parts);
    StateAtStop(before, e, n, k);
    FoundAreThere(files, names, e);
    WholeAtStop(before, e, n, k, names);
    WholeUnfolds(e, PartsOf(names, e), k);
    forall i | 0 <= i < k
      ensures files[PartsOf(names, e)[i].name] == parts[i]
    {
      TemporaryAt(before, e, parts, i);
      MovedAt(before, files, TempParts(e, n), FinalParts(e, n), k, i);
      NameOfPart(e, n, i);
    }
  }

  lemma TemporaryAt(files: Files, e: BackupEntry, parts: seq<Bytes>, i: nat)
    requires AreTemporary(files, e, parts) && i < |parts|
    ensures TempName(e, i + 1) in files && files[TempName(e, i + 1)] == parts[i]
  {
    assert IsTemporary(files, e, i, parts[i]);
    hide IsWritten, TempName;
  }

  lemma TemporaryIsWritten(files: Files, e: BackupEntry, parts: seq<Bytes>)
    requires AreTemporary(files, e, parts)
    ensures IsWritten(files, e, |parts|)
  {
    hide IsWritten;
  }

  lemma WholeUnfolds(e: BackupEntry, found: seq<Found>, k: nat)
    requires IsWhole(e, found, k)
    ensures |found| == k && forall i :: 0 <= i < k ==> found[i] == Found(i + 1, PartName(e, i + 1))
  {
    hide PartName;
  }

  lemma WholeAtStop(before: Files, e: BackupEntry, n: nat, k: nat, names: seq<string>)
    requires IsWritten(before, e, n) && k <= n && |TempParts(e, n)| == n && Lists(names, Renamed(before, TempParts(e, n), k))
    ensures IsWhole(e, PartsOf(names, e), k)
  {
    hide *;
    var files := Renamed(before, TempParts(e, n), k);
    StateAtStop(before, e, n, k);
    IsWrittenUnfolds(before, e, n);
    FoundAreThere(files, names, e);
    PartsFound(names, e);
    PartsOfUnfolds(names, e);
    forall m: nat | 1 <= m <= k
      ensures Printable(e, m)
    {
      PartsUpTo(e, n, m);
    }
    ListedParts(files, names, e, k);
  }

  lemma PartsOfUnfolds(names: seq<string>, e: BackupEntry)
    ensures PartsOf(names, e) == SortByPart(PartsAmong(names, e))
  {
  }

  lemma ListedParts(files: Files, names: seq<string>, e: BackupEntry, k: nat)
    requires Lists(names, files) && Ascending(PartsOf(names, e))
    requires forall x :: x in PartsOf(names, e) <==> x.name in names && x.name == PartName(e, x.part) && Printable(e, x.part)
    requires forall m: nat :: 1 <= m <= k ==> Printable(e, m)
    requires forall i: nat :: Printable(e, i) ==> (PartName(e, i) in files <==> i <= k)
    ensures IsWhole(e, PartsOf(names, e), k)
  {
    var found := PartsOf(names, e);
    hide PartName, PartsOf;
    forall i | 0 <= i < |found|
      ensures 1 <= found[i].part <= k && found[i].name == PartName(e, found[i].part)
    {
      assert found[i] in found;
    }
    forall m: nat | 1 <= m <= k
      ensures HasPart(found, m)
    {
      assert Printable(e, m);
      assert Found(m, PartName(e, m)) in found;
    }
    Consecutive(found, k);
  }

  /** As long as no part has its final name, whatever lies there under temporary
      names, no part of the set is found. */
  lemma UnfinishedIsNotFound(files: Files, e: BackupEntry, names: seq<string>)
    requires Lists(names, files) && forall i: nat :: Printable(e, i) ==> PartName(e, i) !in files
    ensures PartsOf(names, e) == []
  {
    hide *;
    FoundAreThere(files, names, e);
    PartsFound(names, e);
    PartsOfUnfolds(names, e);
    forall i: nat | Printable(e, i)
      ensures i >= 1
    {
      PartNumbers(e, i);
    }
    ListedParts(files, names, e, 0);
    WholeUnfolds(e, PartsOf(names, e), 0);
  }

  /** An interrupted backup is never taken for a complete one: wherever the
      renaming of its parts stops, the parts that are found are 1 to k; they are
      refused at once when k is 0; as long as one is missing no read of them
      succeeds, under any keys; and when none is, they are the set that was written. */
  lemma InterruptedIsNeverComplete(f: C.Format, h: H.Header, master: Bytes, splitSize: nat, data: Bytes, man: Bytes,
                                   parts: seq<Bytes>, before: Files, e: BackupEntry, k: nat, names: seq<string>)
    requires IsSplitSet(f, h, master, splitSize, data, man, parts)
    requires AreTemporary(before, e, parts) && k <= |parts|
    requires Lists(names, Renamed(before, TempParts(e, |parts|), k))
    ensures IsWhole(e, PartsOf(names, e), k)
    ensures forall x :: x in PartsOf(names, e) ==> x.name in Renamed(before, TempParts(e, |parts|), k)
    ensures var found := Contents(Renamed(before, TempParts(e, |parts|), k), PartsOf(names, e));
            && found == parts[..k] && |P.Join(found)| < TWO_TO_THE_63
            && (k < |parts| ==> NeverReads(f, P.Join(found)))
            && (k == |parts| ==>
                  && C.ReadWithMaster(f, master, P.Join(found), |found|) == Some(C.Content(h, data, man))
                  && C.Open(f, P.Join(found), |found|).Opened? && C.Open(f, P.Join(found), |found|).set_.header == h)
  {
    hide *;
    PartsReadBack(f, h, master, splitSize, data, man, parts);
    FoundAtStop(before, e, parts, k, names);
    if k < |parts| {
      NeverReadsUnfolds(f, P.Join(parts[..k]));
    } else {
      assert parts[..k] == parts;
      ReadIsOpened(f, master, P.Join(parts), |parts|);
    }
  }

  /** What discovery answers there, which has no key and looks at names, sizes, header
      and trailer: it opens all the parts exactly when the name fits the header,
      and fewer of them only when, besides, the bytes behind which the parts are
      missing happen to be a trailer that fits what is left. */
  lemma OpensAtStop(f: C.Format, h: H.Header, master: Bytes, splitSize: nat, data: Bytes, man: Bytes,
                    parts: seq<Bytes>, before: Files, e: BackupEntry, k: nat, names: seq<string>)
    requires IsSplitSet(f, h, master, splitSize, data, man, parts)
    requires AreTemporary(before, e, parts) && k <= |parts|
    requires Lists(names, Renamed(before, TempParts(e, |parts|), k))
    ensures forall x :: x in PartsOf(names, e) ==> x.name in Renamed(before, TempParts(e, |parts|), k)
    ensures H.Encode(f.json, h).Some?
    ensures Opens(f, Renamed(before, TempParts(e, |parts|), k), names, e) <==>
            && NameMatches(e, h)
            && (k == |parts| || (k > 0 && C.EndsInTrailer(f, P.Join(parts[..k]), |H.Encode(f.json, h).value|, k)))
  {
    hide *;
    SizeOfParts(e, |parts|);
    var files := Renamed(before, TempParts(e, |parts|), k);
    SplitSetUnfolds(f, h, master, splitSize, data, man, parts);
    InterruptedIsNeverComplete(f, h, master, splitSize, data, man, parts, before, e, k, names);
    WholeUnfolds(e, PartsOf(names, e), k);
    OpensIs(f, files, names, e);
    var s := P.Join(parts);
    if k < |parts| {
      FewerPartsAreShorter(parts, splitSize, k);
    } else {
      assert parts[..k] == parts;
    }
    var n := |P.Join(parts[..k])|;
    assert P.Join(parts[..k]) == s[..n];
    C.CutSetOpens(f, h, master, splitSize, data, man, n, k);
    TrailerIsInParts(f, parts, |H.Encode(f.json, h).value|);
  }

  lemma TrailerIsInParts(f: C.Format, parts: seq<Bytes>, headerLen: nat)
    ensures C.EndsInTrailer(f, P.Join(parts), headerLen, |parts|) ==> |parts| > 0
  {
    assert parts == [] ==> P.Join(parts) == [];
  }

  lemma NeverReadsUnfolds(f: C.Format, s: Bytes)
    requires NeverReads(f, s)
    ensures |s| < TWO_TO_THE_63
  {
  }

  lemma ReadIsOpened(f: C.Format, master: Bytes, s: Bytes, count: int)
    requires |s| < TWO_TO_THE_63 && C.ReadWithMaster(f, master, s, count).Some?
    ensures C.Open(f, s, count).Opened?
    ensures C.Open(f, s, count).set_.header == C.ReadWithMaster(f, master, s, count).value.header
  {
    hide C.Open;
  }
}
