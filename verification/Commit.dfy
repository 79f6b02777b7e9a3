/** How the parts of a set get their final names, and every state in which that
    can stop. */
module Commit {
  import opened Binary
  import opened Naming

  /** The files of the backup directory, by base name. */
  type Files = map<string, Bytes>

  class Folder {
    var files: Files
    /** Whether a rename of a file that is there has failed. */
    var refused: bool

    constructor (files: Files)
      ensures this.files == files && !refused
    {
      this.files, refused := files, false;
    }

    /** os.Stat without an error. */
    method Exists(name: string) returns (exists_: bool)
      ensures exists_ <==> name in files
    {
      return name in files;
    }

    /** os.Rename: all or nothing. */
    method Rename(from: string, to: string) returns (ok: bool)
      modifies this
      ensures ok ==> from in old(files) && files == Moved(old(files), from, to)
      ensures !ok ==> files == old(files)
      ensures refused == (old(refused) || (!ok && from in old(files)))
    {
      ok := *;
      if from !in files {
        ok := false;
      } else if ok {
        files := Moved(files, from, to);
      } else {
        refused := true;
      }
    }
  }

  function Moved(files: Files, from: string, to: string): Files
    requires from in files
  {
    (files - {from})[to := files[from]]
  }

  /** strings.TrimSuffix(name, ".tmp"). */
  function TrimTemp(name: string): string {
    if EndsWith(name, TEMP_SUFFIX) then name[..|name| - |TEMP_SUFFIX|] else name
  }

  /** The directory after the first k parts were renamed. */
  function Renamed(files: Files, temps: seq<string>, k: nat): Files
    requires k <= |temps|
  {
    if k == 0 then files
    else
      var before := Renamed(files, temps, k - 1);
      if temps[k - 1] in before then Moved(before, temps[k - 1], TrimTemp(temps[k - 1])) else before
  }

  lemma RenamedUnfolds(files: Files, temps: seq<string>, k: nat)
    requires k <= |temps|
    ensures k == 0 ==> Renamed(files, temps, k) == files
    ensures k > 0 ==>
              var before := Renamed(files, temps, k - 1);
              Renamed(files, temps, k) ==
              if temps[k - 1] in before then Moved(before, temps[k - 1], TrimTemp(temps[k - 1])) else before
  {
    hide Moved, TrimTemp;
  }

  datatype Result = Final(parts: seq<string>) | NoSuffix(part: string) | AlreadyExists(part: string) | RenameFailed(part: string)

  /** Why finalizing stopped at a part: it has no temporary suffix, its final name
      is taken, or renaming failed. */
  predicate StoppedAt(temp: string, files: Files, r: Result) {
    match r
    case Final(_) => false
    case NoSuffix(part) => part == temp == TrimTemp(temp)
    case AlreadyExists(part) => part == TrimTemp(temp) != temp && part in files
    case RenameFailed(part) => part == temp && TrimTemp(temp) != temp && TrimTemp(temp) !in files
  }

  /** FinalizeParts. No file is overwritten. The directory goes through the states of Renamed one after
      the other and nothing in between, so these are all the states in which an
      error or a crash can leave it. */
  method FinalizeParts(folder: Folder, temps: seq<string>) returns (r: Result, ghost states: seq<Files>)
    modifies folder
    ensures 1 <= |states| <= |temps| + 1 && states[0] == old(folder.files) && states[|states| - 1] == folder.files
    ensures forall k :: 0 <= k < |states| ==> states[k] == Renamed(old(folder.files), temps, k)
    ensures r.Final? ==> |states| == |temps| + 1 && r.parts == seq(|temps|, i requires 0 <= i < |temps| => TrimTemp(temps[i]))
    ensures forall k :: 0 <= k < |states| - 1 ==> temps[k] in states[k] && TrimTemp(temps[k]) !in states[k]
    ensures !r.Final? ==> |states| <= |temps| && StoppedAt(temps[|states| - 1], folder.files, r)
    ensures r.RenameFailed? ==> r.part !in folder.files || folder.refused
    ensures r.Final? ==> |r.parts| == |temps| && forall k :: 0 <= k < |temps| ==> temps[k] == r.parts[k] + ".tmp"
    ensures r.NoSuffix? ==> forall name: string :: name + ".tmp" != r.part
  {
    hide *;
    var parts: seq<string> := [];
    states := [folder.files];
    RenamedUnfolds(folder.files, temps, 0);
    for i := 0 to |temps|
      invariant |states| == i + 1 && states[0] == old(folder.files) && states[i] == folder.files
      invariant forall k :: 0 <= k < |states| ==> states[k] == Renamed(old(folder.files), temps, k)
      invariant forall k :: 0 <= k < i ==> temps[k] in states[k] && TrimTemp(temps[k]) !in states[k]
      invariant |parts| == i && forall j :: 0 <= j < i ==> parts[j] == TrimTemp(temps[j])
      invariant forall j :: 0 <= j < i ==> temps[j] == parts[j] + ".tmp"
    {
      var dst := TrimTemp(temps[i]);
      TrimTempIs(temps[i]);
      StopCases(temps[i], folder.files);
      if dst == temps[i] {
        return NoSuffix(temps[i]), states;
      }
      RenamedUnfolds(old(folder.files), temps, i + 1);
      var exists_ := folder.Exists(dst);
      if exists_ {
        return AlreadyExists(dst), states;
      }
      var ok := folder.Rename(temps[i], dst);
      if !ok {
        return RenameFailed(temps[i]), states;
      }
      parts := parts + [dst];
      states := states + [folder.files];
    }
    return Final(parts), states;
  }

  lemma TrimTempIs(temp: string)
    ensures if TrimTemp(temp) == temp then forall name: string :: name + ".tmp" != temp else temp == TrimTemp(temp) + ".tmp"
  {
    forall name: string | name + ".tmp" == temp
      ensures TrimTemp(temp) == name
    {
      assert (name + ".tmp")[|name|..] == ".tmp" && (name + ".tmp")[..|name|] == name;
    }
  }

  lemma StopCases(temp: string, files: Files)
    ensures StoppedAt(temp, files, NoSuffix(temp)) <==> TrimTemp(temp) == temp
    ensures StoppedAt(temp, files, AlreadyExists(TrimTemp(temp))) <==> TrimTemp(temp) != temp && TrimTemp(temp) in files
    ensures StoppedAt(temp, files, RenameFailed(temp)) <==> TrimTemp(temp) != temp && TrimTemp(temp) !in files
  {
    hide TrimTemp;
  }

  // ------------------------------------------------------------------- what a stop leaves

  /** Distinct temporary names that all lose their suffix, and the final names. */
  ghost predicate AreParts(temps: seq<string>, finals: seq<string>) {
    && |temps| == |finals|
    && (forall i :: 0 <= i < |temps| ==> TrimTemp(temps[i]) == finals[i])
    && (forall i, j :: 0 <= i < |temps| && 0 <= j < |temps| ==>
          temps[i] != finals[j] && (i != j ==> temps[i] != temps[j] && finals[i] != finals[j]))
  }

  /** The first k files have their final names, with the content they had under
      the temporary ones, and no other file is touched. */
  ghost predicate IsMoved(before: Files, files: Files, temps: seq<string>, finals: seq<string>, k: nat)
    requires k <= |temps| == |finals|
  {
    && (forall i :: 0 <= i < k ==>
          temps[i] in before && finals[i] in files && files[finals[i]] == before[temps[i]] && temps[i] !in files)
    && (forall x :: x !in temps[..k] && x !in finals[..k] ==>
          (x in files <==> x in before) && (x in before && x in files ==> files[x] == before[x]))
  }

  lemma MovedOneMore(before: Files, files: Files, temps: seq<string>, finals: seq<string>, k: nat)
    requires AreParts(temps, finals) && k < |temps| && IsMoved(before, files, temps, finals, k)
    requires temps[k] in before
    ensures TrimTemp(temps[k]) == finals[k]
    ensures temps[k] in files && IsMoved(before, Moved(files, temps[k], finals[k]), temps, finals, k + 1)
  {
    hide *;
    PartsDiffer(temps, finals);
    Untouched(before, files, temps, finals, k, temps[k]);
    var files' := Moved(files, temps[k], finals[k]);
    MovedUnfolds(files, temps[k], finals[k]);
    forall i | 0 <= i < k + 1
      ensures temps[i] in before && finals[i] in files' && files'[finals[i]] == before[temps[i]] && temps[i] !in files'
    {
      if i < k {
        MovedAt(before, files, temps, finals, k, i);
      } else {
        Untouched(before, files, temps, finals, k, temps[k]);
      }
    }
    forall x | x !in temps[..k + 1] && x !in finals[..k + 1]
      ensures (x in files' <==> x in before) && (x in before && x in files' ==> files'[x] == before[x])
    {
      assert temps[..k + 1] == temps[..k] + [temps[k]] && finals[..k + 1] == finals[..k] + [finals[k]];
      Untouched(before, files, temps, finals, k, x);
    }
    MovedFolds(before, files', temps, finals, k + 1);
  }

  lemma PartsDiffer(temps: seq<string>, finals: seq<string>)
    requires AreParts(temps, finals)
    ensures |temps| == |finals| && forall i :: 0 <= i < |temps| ==> TrimTemp(temps[i]) == finals[i]
    ensures forall i, j :: 0 <= i < |temps| && 0 <= j < |temps| ==>
              temps[i] != finals[j] && (i != j ==> temps[i] != temps[j] && finals[i] != finals[j])
  {
    hide TrimTemp;
  }

  lemma MovedUnfolds(files: Files, from: string, to: string)
    requires from in files && from != to
    ensures var after := Moved(files, from, to);
            && to in after && from !in after && after[to] == files[from]
            && forall x :: x != from && x != to ==> (x in after <==> x in files) && (x in files ==> after[x] == files[x])
  {
  }

  lemma MovedFolds(before: Files, files: Files, temps: seq<string>, finals: seq<string>, k: nat)
    requires k <= |temps| == |finals|
    requires forall i :: 0 <= i < k ==>
               temps[i] in before && finals[i] in files && files[finals[i]] == before[temps[i]] && temps[i] !in files
    requires forall x :: x !in temps[..k] && x !in finals[..k] ==>
               (x in files <==> x in before) && (x in before && x in files ==> files[x] == before[x])
    ensures IsMoved(before, files, temps, finals, k)
  {
  }

  lemma {:induction false} StopLeaves(before: Files, temps: seq<string>, finals: seq<string>, k: nat)
    requires AreParts(temps, finals) && k <= |temps| && forall i :: 0 <= i < |temps| ==> temps[i] in before
    ensures IsMoved(before, Renamed(before, temps, k), temps, finals, k)
  {
    hide *;
    RenamedUnfolds(before, temps, k);
    PartsMatch(temps, finals);
    if k == 0 {
      NothingMoved(before, temps, finals);
    } else {
      StopLeaves(before, temps, finals, k - 1);
      MovedOneMore(before, Renamed(before, temps, k - 1), temps, finals, k - 1);
    }
  }

  lemma PartsMatch(temps: seq<string>, finals: seq<string>)
    requires AreParts(temps, finals)
    ensures |temps| == |finals|
  {
  }

  lemma NothingMoved(files: Files, temps: seq<string>, finals: seq<string>)
    requires |temps| == |finals|
    ensures IsMoved(files, files, temps, finals, 0)
  {
  }

  lemma MovedAt(before: Files, files: Files, temps: seq<string>, finals: seq<string>, k: nat, i: nat)
    requires i < k <= |temps| == |finals| && IsMoved(before, files, temps, finals, k)
    ensures temps[i] in before && finals[i] in files && files[finals[i]] == before[temps[i]] && temps[i] !in files
  {
  }

  lemma Untouched(before: Files, files: Files, temps: seq<string>, finals: seq<string>, k: nat, x: string)
    requires k <= |temps| == |finals| && IsMoved(before, files, temps, finals, k)
    requires forall j :: 0 <= j < k ==> temps[j] != x && finals[j] != x
    ensures (x in files <==> x in before) && (x in before && x in files ==> files[x] == before[x])
  {
  }

  function TempName(e: BackupEntry, part: nat): string { PartName(e, part) + TEMP_SUFFIX }

  /** The temporary and the final names of the parts 1 to n of a set. */
  function TempParts(e: BackupEntry, n: nat): seq<string> { seq(n, i requires 0 <= i < n => TempName(e, i + 1)) }

  function FinalParts(e: BackupEntry, n: nat): seq<string> { seq(n, i requires 0 <= i < n => PartName(e, i + 1)) }

  lemma TrimOfTemp(e: BackupEntry, part: nat)
    ensures TrimTemp(TempName(e, part)) == PartName(e, part)
  {
    var name := TempName(e, part);
    assert name[|name| - |TEMP_SUFFIX|..] == TEMP_SUFFIX;
    assert name[..|name| - |TEMP_SUFFIX|] == PartName(e, part);
    hide PartName;
  }

  lemma PartsUpTo(e: BackupEntry, n: nat, i: nat)
    requires Printable(e, n) && 1 <= i <= n
    ensures Printable(e, i)
  {
  }

  /** Final and temporary names of different parts are all different. */
  lemma NamesDiffer(e: BackupEntry, i: nat, j: nat)
    requires Printable(e, i) && Printable(e, j)
    ensures PartName(e, i) == PartName(e, j) <==> i == j
    ensures TempName(e, i) == TempName(e, j) <==> i == j
    ensures PartName(e, i) != TempName(e, j)
  {
    PrintThenParse(e, i);
    PrintThenParse(e, j);
    KindsDisjoint(PartName(e, i));
    hide PartName, ParsePartFileName, ParseTempPartFileName, Printable;
  }

  lemma SetPartsAreParts(e: BackupEntry, n: nat)
    requires Printable(e, n)
    ensures AreParts(TempParts(e, n), FinalParts(e, n))
  {
    var temps, finals := TempParts(e, n), FinalParts(e, n);
    hide TrimTemp, PartName, TempName, Printable, TempParts, FinalParts;
    SizeOfParts(e, n);
    forall i, j | 0 <= i < n && 0 <= j < n
      ensures TrimTemp(temps[i]) == finals[i]
      ensures temps[i] != finals[j] && (i != j ==> temps[i] != temps[j] && finals[i] != finals[j])
    {
      NameOfPart(e, n, i);
      NameOfPart(e, n, j);
      TrimOfTemp(e, i + 1);
      PartsUpTo(e, n, i + 1);
      PartsUpTo(e, n, j + 1);
      NamesDiffer(e, i + 1, j + 1);
      NamesDiffer(e, j + 1, i + 1);
    }
  }

  /** Just before finalizing: the parts 1 to n under temporary names, none of the
      set under a final name. */
  ghost predicate IsWritten(files: Files, e: BackupEntry, n: nat) {
    && Printable(e, n)
    && (forall i: nat :: Printable(e, i) ==> (TempName(e, i) in files <==> i <= n) && PartName(e, i) !in files)
  }

  /** Wherever finalizing stops, by an error, a crash or at its end: the final
      names there are exactly those of parts 1 to k, with the content that was
      written, the parts after them have their temporary names, no other file is
      touched, and k is n only at the end. */
  lemma StateAtStop(before: Files, e: BackupEntry, n: nat, k: nat)
    requires IsWritten(before, e, n) && k <= n
    ensures var files := Renamed(before, TempParts(e, n), k);
            && IsMoved(before, files, TempParts(e, n), FinalParts(e, n), k)
            && (forall i: nat :: Printable(e, i) ==>
                  && (PartName(e, i) in files <==> i <= k)
                  && (TempName(e, i) in files <==> k < i <= n))
  {
    hide *;
    var temps, finals := TempParts(e, n), FinalParts(e, n);
    SetPartsAreParts(e, n) by {
      IsWrittenUnfolds(before, e, n);
    }
    SizeOfParts(e, n);
    forall i | 0 <= i < n
      ensures temps[i] in before
    {
      IsWrittenUnfolds(before, e, n);
      PartsUpTo(e, n, i + 1);
      NameOfPart(e, n, i);
    }
    StopLeaves(before, temps, finals, k);
    forall i: nat | Printable(e, i)
      ensures PartName(e, i) in Renamed(before, temps, k) <==> i <= k
      ensures TempName(e, i) in Renamed(before, temps, k) <==> k < i <= n
    {
      PartAtStop(before, e, n, k, i);
    }
  }

  lemma IsWrittenUnfolds(files: Files, e: BackupEntry, n: nat)
    requires IsWritten(files, e, n)
    ensures Printable(e, n)
    ensures forall i: nat :: Printable(e, i) ==> (TempName(e, i) in files <==> i <= n) && PartName(e, i) !in files
  {
    hide PartName, TempName, Printable;
  }

  lemma SizeOfParts(e: BackupEntry, n: nat)
    ensures |TempParts(e, n)| == |FinalParts(e, n)| == n
  {
  }

  lemma NameOfPart(e: BackupEntry, n: nat, i: nat)
    requires i < n
    ensures |TempParts(e, n)| == |FinalParts(e, n)| == n
    ensures TempParts(e, n)[i] == TempName(e, i + 1) && FinalParts(e, n)[i] == PartName(e, i + 1)
  {
  }

  lemma PartAtStop(before: Files, e: BackupEntry, n: nat, k: nat, i: nat)
    requires IsWritten(before, e, n) && k <= n && Printable(e, i)
    requires |TempParts(e, n)| == |FinalParts(e, n)| == n
    requires IsMoved(before, Renamed(before, TempParts(e, n), k), TempParts(e, n), FinalParts(e, n), k)
    ensures PartName(e, i) in Renamed(before, TempParts(e, n), k) <==> i <= k
    ensures TempName(e, i) in Renamed(before, TempParts(e, n), k) <==> k < i <= n
  {
    hide *;
    IsWrittenUnfolds(before, e, n);
    PartNumbers(e, i);
    var temps, finals, files := TempParts(e, n), FinalParts(e, n), Renamed(before, TempParts(e, n), k);
    if i <= k {
      NameOfPart(e, n, i - 1);
      MovedAt(before, files, temps, finals, k, i - 1);
    } else {
      forall j | 0 <= j < k
        ensures temps[j] != TempName(e, i) && temps[j] != PartName(e, i)
        ensures finals[j] != TempName(e, i) && finals[j] != PartName(e, i)
      {
        NameOfPart(e, n, j);
        PartsUpTo(e, n, j + 1);
        NamesDiffer(e, i, j + 1);
        NamesDiffer(e, j + 1, i);
      }
      Untouched(before, files, temps, finals, k, TempName(e, i));
      Untouched(before, files, temps, finals, k, PartName(e, i));
    }
  }

  lemma PartNumbers(e: BackupEntry, i: nat)
    requires Printable(e, i)
    ensures i >= 1
  {
  }
}
