/** Which entries of a TAR stream a restore takes, and what it has after reading streams. */
module Decide {
  import opened Wrappers
  import opened Binary
  import M = Manifest
  import Paths
  import Tar

  type Index = map<string, M.Entry>

  /** The manifest entries by path; a later entry replaces an earlier one. */
  function IndexOf(entries: seq<M.Entry>): Index {
    if |entries| == 0 then map[]
    else IndexOf(entries[..|entries| - 1])[entries[|entries| - 1].path := entries[|entries| - 1]]
  }

  method BuildIndex(entries: seq<M.Entry>) returns (index: Index)
    ensures index == IndexOf(entries)
  {
    index := map[];
    for i := 0 to |entries|
      invariant index == IndexOf(entries[..i])
    {
      index := index[entries[i].path := entries[i]];
      assert entries[..i + 1][..i] == entries[..i];
    }
    assert entries[..|entries|] == entries;
  }

  datatype Decision = Extract(entry: M.Entry) | Pass | Refuse

  /** DecideOwn and DecideFromBase. */
  datatype Decider = OwnData(index: Index) | BaseData(index: Index) {
    function For(name: string): Decision {
      match this
      case OwnData(_) =>
        if name in index && index[name].HasContentInSet() then Extract(index[name])
        else if name in index && index[name].void_ then Pass
        else Refuse
      case BaseData(_) =>
        if name in index && index[name].kind == M.FileKind && index[name].origin == M.FullOrigin then Extract(index[name])
        else Pass
    }
  }

  // --------------------------------------------------------------------------- index

  ghost predicate Distinct(entries: seq<M.Entry>) {
    forall i, j :: 0 <= i < j < |entries| ==> entries[i].path != entries[j].path
  }

  lemma ValidIsDistinct(fold: char -> char, entries: seq<M.Entry>, isDiff: bool)
    requires M.ValidEntries(fold, entries, isDiff)
    ensures Distinct(entries)
    ensures forall i, j :: 0 <= i < j < |entries| ==> M.Fold(fold, entries[i].path) != M.Fold(fold, entries[j].path)
  {
    forall i, j | 0 <= i < j < |entries|
      ensures M.Fold(fold, entries[i].path) != M.Fold(fold, entries[j].path)
    {
      assert M.EntryFits(fold, entries, isDiff, j);
      assert M.Fold(fold, entries[i].path) in M.FoldedBefore(fold, entries, j);
    }
    hide M.Fold;
  }

  lemma {:induction false} IndexHolds(entries: seq<M.Entry>)
    requires Distinct(entries)
    ensures forall e :: e in entries ==> e.path in IndexOf(entries) && IndexOf(entries)[e.path] == e
    ensures forall p :: p in IndexOf(entries) ==> IndexOf(entries)[p] in entries && IndexOf(entries)[p].path == p
  {
    if |entries| > 0 {
      var n := |entries| - 1;
      IndexHolds(entries[..n]);
      assert entries == entries[..n] + [entries[n]];
      assert forall e :: e in entries[..n] ==> e.path != entries[n].path;
    }
  }

  // ------------------------------------------------------------------------- deciders

  /** Of a validated differential, the two deciders take disjoint sets of files
      that together are exactly the files of the manifest. */
  lemma DecidersPartition(fold: char -> char, entries: seq<M.Entry>, name: string)
    requires M.ValidEntries(fold, entries, true)
    ensures var index := IndexOf(entries);
            var own, base := OwnData(index).For(name), BaseData(index).For(name);
            && !(own.Extract? && base.Extract?)
            && ((own.Extract? || base.Extract?) <==> exists e :: e in entries && e.path == name && e.kind == M.FileKind)
  {
    ValidIsDistinct(fold, entries, true);
    IndexHolds(entries);
    var index := IndexOf(entries);
    if name in index {
      EntryIsLegal(fold, entries, true, index[name]);
    }
    hide IndexOf, M.ValidEntries, M.IsValidHash;
  }

  /** In a full backup the own decider takes every file. */
  lemma OwnTakesAll(fold: char -> char, entries: seq<M.Entry>, name: string)
    requires M.ValidEntries(fold, entries, false)
    ensures OwnData(IndexOf(entries)).For(name).Extract? <==> exists e :: e in entries && e.path == name && e.kind == M.FileKind
  {
    ValidIsDistinct(fold, entries, false);
    IndexHolds(entries);
    var index := IndexOf(entries);
    if name in index {
      EntryIsLegal(fold, entries, false, index[name]);
    }
    hide IndexOf, M.ValidEntries, M.IsValidHash;
  }

  /** Any entry of a set's own data that the manifest does not describe is an
      error: refused are exactly the names without a content or void entry, and
      passed over exactly the void ones. The full backup's data is never refused. */
  lemma OwnRefusesOthers(fold: char -> char, entries: seq<M.Entry>, isDiff: bool, name: string)
    requires M.ValidEntries(fold, entries, isDiff)
    ensures var own, base := OwnData(IndexOf(entries)).For(name), BaseData(IndexOf(entries)).For(name);
            && (own.Refuse? <==> forall e :: e in entries && e.path == name ==> !e.HasContentInSet() && !e.void_)
            && (own.Pass? <==> exists e :: e in entries && e.path == name && e.void_)
            && !base.Refuse?
  {
    ValidIsDistinct(fold, entries, isDiff);
    IndexHolds(entries);
    var index := IndexOf(entries);
    if name in index {
      EntryIsLegal(fold, entries, isDiff, index[name]);
    }
    hide IndexOf, M.ValidEntries, M.IsValidHash;
  }

  lemma EntryIsLegal(fold: char -> char, entries: seq<M.Entry>, isDiff: bool, e: M.Entry)
    requires M.ValidEntries(fold, entries, isDiff) && e in entries
    ensures M.ValidateEntry(e, isDiff) && Paths.ValidatePath(e.path).None?
  {
    var i :| 0 <= i < |entries| && entries[i] == e;
    assert M.EntryFits(fold, entries, isDiff, i);
  }

  // ------------------------------------------------------------------ reading streams

  /** The contents restored so far, by path. */
  type Contents = map<string, Bytes>

  /** One TAR entry: what is restored after it, None when it is refused. */
  function Take(decider: Decider, digest: Bytes -> string, item: Tar.Item, contents: Contents): Option<Contents> {
    if !item.regular then None
    else
      match decider.For(item.name)
      case Refuse => None
      case Pass => if Tar.Complete(item) then Some(contents) else None
      case Extract(e) =>
        if e.kind != M.FileKind || e.path != item.name || item.name in contents || item.size != e.size
           || !Tar.Complete(item) || digest(item.content) != e.hash then None
        else Some(contents[item.name := item.content])
  }

  function TakeAll(decider: Decider, digest: Bytes -> string, items: seq<Tar.Item>, contents: Contents): Option<Contents> {
    if |items| == 0 then Some(contents)
    else
      var before := TakeAll(decider, digest, items[..|items| - 1], contents);
      if before.None? then None else Take(decider, digest, items[|items| - 1], before.value)
  }

  /** A whole section: its entries, then a clean end. */
  function Feed(decider: Decider, digest: Bytes -> string, section: Tar.Section, contents: Contents): Option<Contents> {
    if section.clean then TakeAll(decider, digest, section.items, contents) else None
  }

  lemma {:induction false} RefusedStaysRefused(decider: Decider, digest: Bytes -> string, items: seq<Tar.Item>, k: nat,
                                               contents: Contents)
    requires k <= |items| && TakeAll(decider, digest, items[..k], contents).None?
    ensures TakeAll(decider, digest, items, contents).None?
    decreases |items|
  {
    hide Take;
    if k == |items| {
      assert items[..k] == items;
    } else {
      assert items[..|items| - 1][..k] == items[..k];
      RefusedStaysRefused(decider, digest, items[..|items| - 1], k, contents);
    }
  }

  /** Every content is that of a file of the manifest, with its size and hash. */
  ghost predicate Sound(index: Index, digest: Bytes -> string, contents: Contents) {
    forall p :: p in contents ==>
      && p in index && index[p].path == p && index[p].kind == M.FileKind
      && index[p].size == |contents[p]| && index[p].hash == digest(contents[p])
  }

  lemma TakeIsSound(decider: Decider, digest: Bytes -> string, item: Tar.Item, contents: Contents)
    requires Sound(decider.index, digest, contents) && Take(decider, digest, item, contents).Some?
    ensures Sound(decider.index, digest, Take(decider, digest, item, contents).value)
  {
  }

  /** What a section adds: contents of new names only, so nothing is restored
      twice and nothing restored before changes. */
  lemma {:induction false} FeedOnlyAdds(decider: Decider, digest: Bytes -> string, items: seq<Tar.Item>, contents: Contents)
    requires TakeAll(decider, digest, items, contents).Some?
    ensures var after := TakeAll(decider, digest, items, contents).value;
            && (forall p :: p in contents ==> p in after && after[p] == contents[p])
            && (Sound(decider.index, digest, contents) ==> Sound(decider.index, digest, after))
            && (forall p :: p in after ==> p in contents || decider.For(p).Extract?)
            && |after| == |contents| + |Taken(decider, items)|
    decreases |items|
  {
    hide Tar.Complete, Sound, Decider.For;
    if |items| > 0 {
      var n := |items| - 1;
      FeedOnlyAdds(decider, digest, items[..n], contents);
      var before := TakeAll(decider, digest, items[..n], contents).value;
      if Sound(decider.index, digest, contents) {
        TakeIsSound(decider, digest, items[n], before);
      }
    }
  }

  /** The entries of a stream that are extracted. */
  function Taken(decider: Decider, items: seq<Tar.Item>): seq<Tar.Item> {
    if |items| == 0 then []
    else
      var n := |items| - 1;
      Taken(decider, items[..n]) + (if decider.For(items[n].name).Extract? then [items[n]] else [])
  }

  /** Every file is there: what Finish asks for. */
  ghost predicate IsWhole(entries: seq<M.Entry>, contents: Contents) {
    forall e :: e in entries && e.kind == M.FileKind ==> e.path in contents
  }

  /** Restore soundness: after any streams, fed through deciders of a validated
      manifest in any order, that are all accepted and leave no file missing,
      there is content for exactly the files of the manifest, with the recorded
      size and hash. */
  lemma {:induction false} FedIsSound(fold: char -> char, entries: seq<M.Entry>, isDiff: bool, digest: Bytes -> string,
                                      sections: seq<(Decider, Tar.Section)>)
    requires M.ValidEntries(fold, entries, isDiff) && FeedAll(digest, sections).Some?
    requires forall i :: 0 <= i < |sections| ==> sections[i].0.index == IndexOf(entries)
    ensures var c := FeedAll(digest, sections).value;
            && Sound(IndexOf(entries), digest, c)
            && (IsWhole(entries, c) ==>
                  forall p :: p in c <==> exists e :: e in entries && e.path == p && e.kind == M.FileKind)
    decreases |sections|
  {
    if |sections| > 0 {
      var n := |sections| - 1;
      FedIsSound(fold, entries, isDiff, digest, sections[..n]);
      FeedOnlyAdds(sections[n].0, digest, sections[n].1.items, FeedAll(digest, sections[..n]).value);
    }
    ValidIsDistinct(fold, entries, isDiff);
    IndexHolds(entries);
    hide IndexOf, M.ValidEntries, TakeAll;
  }

  function FeedAll(digest: Bytes -> string, sections: seq<(Decider, Tar.Section)>): Option<Contents> {
    if |sections| == 0 then Some(map[])
    else
      var n := |sections| - 1;
      var before := FeedAll(digest, sections[..n]);
      if before.None? then None else Feed(sections[n].0, digest, sections[n].1, before.value)
  }
}
