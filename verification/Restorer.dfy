/** The restorer: directories first, then the contents of one or more data
    sections, then the times and attributes of the directories. */
module Restorer {
  import opened Wrappers
  import opened Binary
  import opened FileSystem
  import opened Decide
  import opened Destination
  import M = Manifest
  import Paths
  import Tar

  datatype Failure = VolumeFailed(error: Error) | BadPath | Damaged | Missing(paths: seq<string>)

  /** A path that exists already, or whose directory does not exist. */
  predicate Conflicts(e: Option<Failure>) {
    e == Some(VolumeFailed(Exists)) || e == Some(VolumeFailed(NoParent)) || e == Some(VolumeFailed(NotFound))
  }

  function AllDirs(entries: seq<M.Entry>): set<string> { M.DirsBefore(entries, |entries|) }

  /** A destination that is there and has nothing in it. */
  ghost predicate IsEmpty(fold: char -> char, dest: string, nodes: Nodes) {
    && M.Fold(fold, dest) in nodes && nodes[M.Fold(fold, dest)].Dir?
    && forall k :: k in nodes ==> !IsBelow(k, M.Fold(fold, dest))
  }

  // ------------------------------------------------------------- why nothing conflicts

  lemma FoldsDiffer(fold: char -> char, entries: seq<M.Entry>, isDiff: bool, p: string, q: string)
    requires M.ValidEntries(fold, entries, isDiff) && p in IndexOf(entries) && q in IndexOf(entries) && p != q
    ensures M.Fold(fold, p) != M.Fold(fold, q)
  {
    ValidIsDistinct(fold, entries, isDiff);
    IndexHolds(entries);
    hide IndexOf, M.ValidEntries, M.Fold;
    var i :| 0 <= i < |entries| && entries[i] == IndexOf(entries)[p];
    var j :| 0 <= j < |entries| && entries[j] == IndexOf(entries)[q];
  }

  lemma LastSlashIs(p: string, i: int)
    requires -1 <= i < |p| && (i >= 0 ==> p[i] == '/') && forall k :: i < k < |p| ==> p[k] != '/'
    ensures Paths.LastSlash(p) == i
  {
    hide Paths.LastSlash;
  }

  lemma DirOfAccepted(rel: string)
    requires Paths.ValidatePath(rel).None?
    ensures var i := Paths.LastSlash(rel);
            if i < 0 then Paths.Dir(rel) == "." else Paths.Dir(rel) == rel[..i] && rel[..i] != "."
  {
    var i := Paths.LastSlash(rel);
    Paths.AcceptedPaths(rel);
    hide Paths.ValidatePath, Paths.LastSlash;
    if i < 0 {
      assert Paths.Split("") == [""] && Paths.CleanSegments([""]) == [];
    } else {
      var d, n := rel[..i], rel[i + 1..];
      assert rel == d + "/" + n;
      Paths.SplitConcat(d, n);
      Paths.SplitPlain(n);
      assert Paths.Split(rel) == Paths.Split(d) + [n];
      SplitOfPrefix(rel, d, n);
      assert d != "" && Paths.Child(d, n) == rel;
      hide Paths.Split;
      Paths.DirOfChild(d, n);
    }
  }

  lemma SplitOfPrefix(rel: string, d: string, n: string)
    requires Paths.PlainPath(rel) && Paths.Split(rel) == Paths.Split(d) + [n] && '/' !in n
    ensures Paths.PlainPath(d) && Paths.IsName(n) && d != "" && d != "."
  {
    forall i | 0 <= i < |Paths.Split(d)|
      ensures Paths.PlainSegment(Paths.Split(d)[i])
    {
      assert Paths.Split(rel)[i] == Paths.Split(d)[i];
    }
    assert Paths.PlainSegment(Paths.Split(rel)[|Paths.Split(d)|]);
    assert Paths.PlainSegment(Paths.Split(d)[0]);
    Paths.SplitPlain("");
    Paths.SplitPlain(".");
  }

  lemma ParentOfKey(fold: char -> char, dest: string, rel: string)
    requires M.Folding(fold) && Paths.ValidatePath(rel).None?
    ensures var k := Key(fold, dest, rel);
            var i := Paths.LastSlash(k);
            i >= 0 && k[..i] == if Paths.Dir(rel) == "." then M.Fold(fold, dest) else Key(fold, dest, Paths.Dir(rel))
  {
    hide *;
    DirOfAccepted(rel);
    var s, i := dest + "/" + rel, Paths.LastSlash(rel);
    LastSlashBelow(dest, rel);
    LastSlashOfFold(fold, s);
    FoldPrefix(fold, s, |dest| + 1 + i);
    KeyUnfolds(fold, dest, rel);
    if i < 0 {
      assert s[..|dest|] == dest;
    } else {
      KeyUnfolds(fold, dest, rel[..i]);
      assert s[..|dest| + 1 + i] == dest + "/" + rel[..i];
    }
  }

  lemma LastSlashOfFold(fold: char -> char, s: string)
    requires M.Folding(fold)
    ensures Paths.LastSlash(M.Fold(fold, s)) == Paths.LastSlash(s)
  {
    LastSlashIs(M.Fold(fold, s), Paths.LastSlash(s));
    hide Paths.LastSlash;
  }

  lemma LastSlashBelow(dest: string, rel: string)
    ensures Paths.LastSlash(dest + "/" + rel) == |dest| + 1 + Paths.LastSlash(rel)
  {
    hide Paths.LastSlash;
    var s := dest + "/" + rel;
    assert forall m :: |dest| < m < |s| ==> s[m] == rel[m - |dest| - 1];
    LastSlashIs(s, |dest| + 1 + Paths.LastSlash(rel));
  }

  lemma FoldPrefix(fold: char -> char, s: string, j: nat)
    requires j <= |s|
    ensures M.Fold(fold, s)[..j] == M.Fold(fold, s[..j])
  {
  }

  /** In an empty destination an entry of a validated manifest finds its
      directory and finds its own place free. */
  lemma PlaceIsFree(fold: char -> char, dest: string, entries: seq<M.Entry>, isDiff: bool, before: Nodes, now: Nodes,
                    tree: Nodes, p: string)
    requires M.Folding(fold) && M.ValidEntries(fold, entries, isDiff) && IsEmpty(fold, dest, before)
    requires Shows(fold, dest, before, now, tree) && tree.Keys <= IndexOf(entries).Keys
    requires p in IndexOf(entries) && p !in tree && Paths.ValidatePath(p).None?
    requires Paths.Dir(p) == "." || (Paths.Dir(p) in tree && tree[Paths.Dir(p)].Dir?)
    ensures Key(fold, dest, p) !in now && HasParent(now, Key(fold, dest, p))
  {
    hide *;
    FreeInTree(fold, dest, entries, isDiff, before, now, tree, p);
    ParentShown(fold, dest, before, now, tree, p);
  }

  lemma FreeInTree(fold: char -> char, dest: string, entries: seq<M.Entry>, isDiff: bool, before: Nodes, now: Nodes,
                   tree: Nodes, p: string)
    requires M.Folding(fold) && M.ValidEntries(fold, entries, isDiff) && IsEmpty(fold, dest, before)
    requires Shows(fold, dest, before, now, tree) && tree.Keys <= IndexOf(entries).Keys
    requires p in IndexOf(entries) && p !in tree
    ensures Key(fold, dest, p) !in now
  {
    KeyIs(fold, dest, p);
    forall q | q in tree
      ensures Key(fold, dest, q) != Key(fold, dest, p)
    {
      FoldsDiffer(fold, entries, isDiff, p, q);
      KeysDiffer(fold, dest, p, q);
    }
    hide Key, M.Fold, IndexOf, M.Folding, M.ValidEntries, IsBelow;
  }

  lemma ParentShown(fold: char -> char, dest: string, before: Nodes, now: Nodes, tree: Nodes, p: string)
    requires M.Folding(fold) && IsEmpty(fold, dest, before) && Shows(fold, dest, before, now, tree)
    requires Paths.ValidatePath(p).None?
    requires Paths.Dir(p) == "." || (Paths.Dir(p) in tree && tree[Paths.Dir(p)].Dir?)
    ensures HasParent(now, Key(fold, dest, p))
  {
    ParentOfKey(fold, dest, p);
    hide Key, M.Fold, M.Folding, IsBelow, Paths.ValidatePath, Paths.Dir, Paths.LastSlash;
  }

  // -------------------------------------------------------------- directories in order

  /** sort.SliceStable of Finish: deeper directories first. */
  function DeepestFirst(dirs: seq<M.Entry>): seq<M.Entry> {
    if |dirs| == 0 then [] else Insert(DeepestFirst(dirs[..|dirs| - 1]), dirs[|dirs| - 1])
  }

  function Insert(sorted: seq<M.Entry>, e: M.Entry): seq<M.Entry> {
    if |sorted| == 0 || Depth(sorted[|sorted| - 1].path) >= Depth(e.path) then sorted + [e]
    else Insert(sorted[..|sorted| - 1], e) + [sorted[|sorted| - 1]]
  }

  ghost predicate Sorted(dirs: seq<M.Entry>) {
    forall i, j :: 0 <= i < j < |dirs| ==> Depth(dirs[i].path) >= Depth(dirs[j].path)
  }

  lemma {:induction false} InsertSorts(sorted: seq<M.Entry>, e: M.Entry)
    requires Sorted(sorted)
    ensures Sorted(Insert(sorted, e))
    ensures forall x :: x in Insert(sorted, e) <==> x in sorted || x == e
  {
    hide Depth;
    if !(|sorted| == 0 || Depth(sorted[|sorted| - 1].path) >= Depth(e.path)) {
      var init := sorted[..|sorted| - 1];
      InsertSorts(init, e);
      assert sorted == init + [sorted[|sorted| - 1]];
      assert forall x :: x in Insert(init, e) ==> Depth(x.path) >= Depth(sorted[|sorted| - 1].path);
    }
  }

  lemma {:induction false} DeepestFirstSorts(dirs: seq<M.Entry>)
    ensures Sorted(DeepestFirst(dirs))
    ensures forall x :: x in DeepestFirst(dirs) <==> x in dirs
  {
    if |dirs| > 0 {
      var init := dirs[..|dirs| - 1];
      DeepestFirstSorts(init);
      InsertSorts(DeepestFirst(init), dirs[|dirs| - 1]);
      assert dirs == init + [dirs[|dirs| - 1]];
    }
  }

  // --------------------------------------------------------------------- single steps

  ghost predicate Lawful(fold: char -> char, dest: string, entries: seq<M.Entry>, isDiff: bool) {
    M.Folding(fold) && M.ValidEntries(fold, entries, isDiff) && Paths.PlainPath(dest)
  }

  lemma DirsAreIndexed(fold: char -> char, entries: seq<M.Entry>, isDiff: bool, n: nat)
    requires M.ValidEntries(fold, entries, isDiff) && n <= |entries|
    ensures forall p :: p in M.DirsBefore(entries, n) ==> p in IndexOf(entries) && IndexOf(entries)[p].kind == M.DirKind
    ensures M.DirsBefore(entries, n) <= AllDirs(entries)
  {
    ValidIsDistinct(fold, entries, isDiff);
    IndexHolds(entries);
    hide IndexOf, M.ValidEntries;
  }

  lemma KeysOfTree(fold: char -> char, dest: string, entries: seq<M.Entry>, isDiff: bool, p: string, q: string)
    requires Lawful(fold, dest, entries, isDiff) && p in IndexOf(entries) && q in IndexOf(entries) && p != q
    ensures Key(fold, dest, p) != Key(fold, dest, q)
  {
    FoldsDiffer(fold, entries, isDiff, p, q);
    KeysDiffer(fold, dest, p, q);
  }

  /** Adding a bare directory or a file to a tree without finished directories. */
  lemma TreeGrows(fold: char -> char, dest: string, entries: seq<M.Entry>, isDiff: bool, before: Nodes, now: Nodes,
                  next: Nodes, tree: Nodes, p: string, node: Node)
    requires Lawful(fold, dest, entries, isDiff) && tree.Keys <= IndexOf(entries).Keys && p in IndexOf(entries)
    requires Shows(fold, dest, before, now, tree) && forall q :: q in tree && tree[q].Dir? ==> tree[q].written == Now
    requires Key(fold, dest, p) !in now && Step(now, next, Key(fold, dest, p), node)
    ensures Shows(fold, dest, before, next, tree[p := node])
  {
    hide *;
    forall q | q in tree && q != p
      ensures Key(fold, dest, q) != Key(fold, dest, p)
    {
      KeysOfTree(fold, dest, entries, isDiff, p, q);
    }
    ShowsStep(fold, dest, before, now, next, tree, p, node);
  }

  lemma TreeWithDir(index: Index, created: set<string>, contents: Contents, p: string)
    requires created <= index.Keys && contents.Keys <= index.Keys && p in index && p !in contents
    ensures Tree(index, created + {p}, {}, contents) == Tree(index, created, {}, contents)[p := NEW_DIR]
  {
  }

  lemma TreeWithFile(index: Index, created: set<string>, contents: Contents, p: string, content: Bytes)
    requires created <= index.Keys && contents.Keys <= index.Keys && p in index
    ensures Tree(index, created, {}, contents[p := content]) ==
            Tree(index, created, {}, contents)[p := FileNode(index[p], content)]
  {
  }

  lemma TreeWithFinished(index: Index, created: set<string>, finished: set<string>, contents: Contents, p: string)
    requires created <= index.Keys && contents.Keys <= index.Keys && p in created && p !in contents
    ensures Tree(index, created, finished + {p}, contents) ==
            Tree(index, created, finished, contents)[p := DirNode(index[p])]
  {
  }

  lemma BareTree(index: Index, created: set<string>, contents: Contents)
    requires created <= index.Keys && contents.Keys <= index.Keys
    ensures var tree := Tree(index, created, {}, contents);
            && tree.Keys <= index.Keys
            && forall q :: q in tree && tree[q].Dir? ==> tree[q].written == Now
  {
  }

  // ---------------------------------------------------------------------- the restorer

  class Restorer {
    const volume: Volume
    const dest: string
    const isRoot: bool
    const verifyOnly: bool
    const entries: seq<M.Entry>
    const digest: Bytes -> string
    const codec: Tar.Codec
    ghost const isDiff: bool
    var ownOnly: bool
    var done: set<string>
    var failures: seq<string>

    /** The volume when the restore began, the contents and directories restored so far. */
    ghost const before: Nodes
    ghost var contents: Contents
    ghost var created: set<string>

    ghost predicate Valid()
      reads this, volume
    {
      && Lawful(volume.fold, dest, entries, isDiff)
      && done == contents.Keys && Sound(IndexOf(entries), digest, contents)
      && created <= AllDirs(entries) && created <= IndexOf(entries).Keys && contents.Keys <= IndexOf(entries).Keys
      && (if verifyOnly then volume.nodes == before
          else Shows(volume.fold, dest, before, volume.nodes, Tree(IndexOf(entries), created, {}, contents)))
    }

    /** The directories of the manifest are there. */
    ghost predicate Ready()
      reads this, volume
    {
      Valid() && (verifyOnly || created == AllDirs(entries))
    }

    ghost predicate Kept()
      reads this, volume
    {
      Contained(volume.fold, dest, before, volume.nodes)
    }

    constructor (volume: Volume, dest: string, isRoot: bool, verifyOnly: bool, entries: seq<M.Entry>, ghost isDiff: bool,
                 digest: Bytes -> string, codec: Tar.Codec)
      requires Lawful(volume.fold, dest, entries, isDiff)
      ensures this.volume == volume && this.dest == dest && this.isRoot == isRoot && this.verifyOnly == verifyOnly
      ensures this.entries == entries && this.isDiff == isDiff && this.digest == digest && this.codec == codec
      ensures before == volume.nodes && contents == map[] && created == {} && !ownOnly && Valid()
    {
      this.volume, this.dest, this.isRoot, this.verifyOnly := volume, dest, isRoot, verifyOnly;
      this.entries, this.isDiff, this.digest, this.codec := entries, isDiff, digest, codec;
      ownOnly, done, failures := false, {}, [];
      before, contents, created := volume.nodes, map[], {};
      new;
      hide Lawful;
      ShowsNothing(volume.fold, dest, volume.nodes);
      assert Tree(IndexOf(entries), {}, {}, map[]) == map[];
      hide Shows, IndexOf;
    }

    method ExpectOwnContentOnly()
      modifies this`ownOnly
      ensures ownOnly
    {
      ownOnly := true;
    }

    // ------------------------------------------------------------------- directories

    /** One turn of CreateDirectories. */
    method CreateDirectory(i: nat) returns (e: Option<Failure>)
      requires i < |entries| && entries[i].kind == M.DirKind
      requires Valid() && !verifyOnly && contents == map[] && created == M.DirsBefore(entries, i)
      modifies volume, this`created
      ensures e == Some(VolumeFailed(Refused)) ==> volume.refused
      ensures e.None? ==> Valid() && created == M.DirsBefore(entries, i + 1)
      ensures e.Some? ==> e.value.VolumeFailed? || e.value.BadPath?
      ensures e == Some(BadPath) ==> isRoot
      ensures Kept() && (IsEmpty(volume.fold, dest, before) ==> !Conflicts(e))
    {
      hide *;
      ValidIs(this);
      LawfulUnfolds(volume.fold, dest, entries, isDiff);
      ValidIsContained(this);
      var path := entries[i].path;
      ghost var tree, was := Tree(IndexOf(entries), created, {}, map[]), volume.nodes;
      DirectoryIsNew(volume.fold, dest, entries, isDiff, i);
      BareTree(IndexOf(entries), created, map[]);
      if IsEmpty(volume.fold, dest, before) {
        DirectoryIsFree(volume.fold, dest, entries, isDiff, before, was, i);
      }
      TargetPathIs(dest, isRoot, path);
      KeyUnfolds(volume.fold, dest, path);
      var p := TargetPath(dest, isRoot, path);
      if p.None? {
        KeptFolds(this);
        ConflictsUnfolds(BadPath);
        return Some(BadPath);
      }
      var err := volume.Create(p.value, NEW_DIR);
      if err.Some? {
        KeptFolds(this);
        ConflictsUnfolds(VolumeFailed(err.value));
        return Some(VolumeFailed(err.value));
      }
      e := None;
      TreeGrows(volume.fold, dest, entries, isDiff, before, was, volume.nodes, tree, path, NEW_DIR);
      TreeWithDir(IndexOf(entries), created, map[], path);
      created := created + {path};
      DirsAreIndexed(volume.fold, entries, isDiff, i + 1);
      ValidIs(this);
      ValidIsKept(this);
      NoConflict();
    }

    method CreateDirectories() returns (e: Option<Failure>)
      requires Valid() && contents == map[] && created == {}
      modifies volume, this`created
      ensures e == Some(VolumeFailed(Refused)) ==> volume.refused
      ensures e.None? ==> Ready()
      ensures e.Some? ==> e.value.VolumeFailed? || e.value.BadPath?
      ensures e == Some(BadPath) ==> isRoot
      ensures Kept() && (IsEmpty(volume.fold, dest, before) ==> !Conflicts(e))
      ensures verifyOnly ==> volume.nodes == old(volume.nodes)
    {
      hide *;
      ValidIsKept(this);
      NoConflict();
      NoDirs(entries);
      if verifyOnly {
        ReadyFolds(this);
        return None;
      }
      for i := 0 to |entries|
        invariant Valid() && created == M.DirsBefore(entries, i)
      {
        AddOther(entries, i);
        if entries[i].kind != M.DirKind {
          continue;
        }
        e := CreateDirectory(i);
        if e.Some? {
          return;
        }
      }
      e := None;
      ReadyFolds(this);
      ValidIsKept(this);
    }

    // ------------------------------------------------------------------------- files

    /** Creates the file and copies what the stream has of it. */
    method CopyFile(p: string, ghost k: string, item: Tar.Item) returns (err: Option<Failure>)
      requires k == M.Fold(volume.fold, p)
      modifies volume
      ensures err == Some(VolumeFailed(Refused)) ==> volume.refused
      ensures err.Some? ==> err.value.VolumeFailed? || (err.value == Damaged && |item.content| != item.size)
      ensures volume.nodes == old(volume.nodes)
              || (k !in old(volume.nodes) && exists n :: Step(old(volume.nodes), volume.nodes, k, n))
      ensures err.None? ==>
                && k !in old(volume.nodes) && |item.content| == item.size
                && Step(old(volume.nodes), volume.nodes, k, File(Now, Now, 0, item.content))
      ensures k !in old(volume.nodes) && HasParent(old(volume.nodes), k) ==> !Conflicts(err)
    {
      hide *;
      ghost var n0 := volume.nodes;
      NoConflict();
      var created := volume.Create(p, NEW_FILE);
      if created.Some? {
        ConflictsUnfolds(VolumeFailed(created.value));
        return Some(VolumeFailed(created.value));
      }
      ghost var n1 := volume.nodes;
      NewNode(n0, n1, k);
      var written := volume.Write(p, item.content);
      WrittenNode(n0, n1, volume.nodes, k, item.content, written.None?);
      if written.Some? {
        ConflictsUnfolds(VolumeFailed(Refused));
        return Some(VolumeFailed(Refused));
      }
      ConflictsUnfolds(Damaged);
      return if |item.content| != item.size then Some(Damaged) else None;
    }

    method Stamp(p: string, ghost k: string, ghost node: Node, e: M.Entry) returns (err: Option<Failure>)
      requires k == M.Fold(volume.fold, p) && k in volume.nodes && volume.nodes[k] == node
      modifies volume
      ensures err == Some(VolumeFailed(Refused)) ==> volume.refused
      ensures err.Some? ==> err.value == VolumeFailed(Refused)
      ensures exists n :: Step(old(volume.nodes), volume.nodes, k, n)
      ensures err.None? ==> Step(old(volume.nodes), volume.nodes, k,
                                 Flagged(Stamped(node, e.creationTime, e.modTime), e.attributes & M.ATTR_MASK))
    {
      hide *;
      ghost var n0 := volume.nodes;
      NoStep(n0, k);
      var timed := volume.SetTimes(p, e.creationTime, e.modTime);
      if timed.Some? {
        return Some(VolumeFailed(timed.value));
      }
      ghost var n1, m := volume.nodes, Stamped(node, e.creationTime, e.modTime);
      StepHolds(n0, n1, k, m);
      var flagged := volume.SetAttributes(p, e.attributes);
      if flagged.Some? {
        return Some(VolumeFailed(flagged.value));
      }
      StepsCompose(n0, n1, volume.nodes, k, m, Flagged(m, e.attributes & M.ATTR_MASK));
      return None;
    }

    /** extractFile: only reads and checks, or writes the file as well. */
    method ExtractFile(item: Tar.Item, e: M.Entry) returns (err: Option<Failure>)
      requires Ready() && e.kind == M.FileKind && e.path == item.name && item.name !in done
      requires item.regular && item.name in IndexOf(entries) && IndexOf(entries)[item.name] == e
      modifies volume
      ensures err == Some(VolumeFailed(Refused)) ==> volume.refused
      ensures Kept() && (IsEmpty(volume.fold, dest, before) ==> !Conflicts(err))
      ensures verifyOnly ==> volume.nodes == old(volume.nodes)
      ensures err.None? ==> Tar.Complete(item) && digest(item.content) == e.hash
      ensures err.None? && !verifyOnly ==>
                var k := Key(volume.fold, dest, e.path);
                k !in old(volume.nodes) && Step(old(volume.nodes), volume.nodes, k, FileNode(e, item.content))
      ensures err == Some(Damaged) ==> !Tar.Complete(item) || digest(item.content) != e.hash
      ensures err.Some? ==> !err.value.Missing?
      ensures err == Some(BadPath) ==> isRoot
    {
      hide *;
      ReadyFolds(this);
      ValidIsContained(this);
      ValidIsKept(this);
      NoConflict();
      ConflictsUnfolds(Damaged);
      ConflictsUnfolds(BadPath);
      ConflictsUnfolds(VolumeFailed(Refused));
      CompleteFolds(item);
      if verifyOnly {
        return if |item.content| != item.size || digest(item.content) != e.hash then Some(Damaged) else None;
      }
      ghost var n0, k := volume.nodes, Key(volume.fold, dest, e.path);
      ValidIs(this);
      LawfulUnfolds(volume.fold, dest, entries, isDiff);
      KeyUnfolds(volume.fold, dest, e.path);
      TargetPathIs(dest, isRoot, e.path);
      EntryHasDir(volume.fold, entries, isDiff, e.path);
      SoundUnfolds(IndexOf(entries), digest, contents);
      if IsEmpty(volume.fold, dest, before) {
        FileIsFree(volume.fold, dest, entries, isDiff, before, n0, created, contents, e.path);
      }
      var p := TargetPath(dest, isRoot, e.path);
      if p.None? {
        return Some(BadPath);
      }
      err := CopyFile(p.value, k, item);
      StillContained(this, n0, e.path);
      if err.Some? {
        return;
      }
      if digest(item.content) != e.hash {
        return Some(Damaged);
      }
      ghost var n1, node := volume.nodes, File(Now, Now, 0, item.content);
      StepHolds(n0, n1, k, node);
      err := Stamp(p.value, k, node, e);
      ghost var n :| Step(n1, volume.nodes, k, n);
      StepsCompose(n0, n1, volume.nodes, k, node, n);
      StillContained(this, n0, e.path);
      if err.None? {
        FinishedFile(e, item.content);
        StepsCompose(n0, n1, volume.nodes, k, node, FileNode(e, item.content));
      }
    }

    // ---------------------------------------------------------------------- sections

    /** One turn of ExtractSection. */
    method ExtractItem(decider: Decider, item: Tar.Item) returns (err: Option<Failure>)
      requires Ready() && decider.index == IndexOf(entries)
      modifies volume, this`done, this`contents
      ensures err == Some(VolumeFailed(Refused)) ==> volume.refused
      ensures Kept() && (IsEmpty(volume.fold, dest, before) ==> !Conflicts(err))
      ensures verifyOnly ==> volume.nodes == old(volume.nodes)
      ensures err.None? ==> Ready() && Take(decider, digest, item, old(contents)) == Some(contents)
      ensures err == Some(Damaged) ==> Take(decider, digest, item, old(contents)).None?
      ensures err.Some? ==> !err.value.Missing?
      ensures err == Some(BadPath) ==> isRoot
    {
      hide *;
      ReadyFolds(this);
      ValidIs(this);
      ValidIsKept(this);
      NoConflict();
      ConflictsUnfolds(Damaged);
      TakeUnfolds(decider, digest, item, contents);
      if !item.regular {
        return Some(Damaged);
      }
      match decider.For(item.name)
      case Refuse =>
        return Some(Damaged);
      case Pass =>
        return if Tar.Complete(item) then None else Some(Damaged);
      case Extract(e) =>
        if e.kind != M.FileKind || e.path != item.name || item.name in done || item.size != e.size {
          return Some(Damaged);
        }
        ExtractsIndexed(decider, item.name);
        err := ExtractFile(item, e);
        if err.None? {
          FileTaken(this, old(volume.nodes), decider, item);
          TreeWithFile(IndexOf(entries), created, contents, item.name, item.content);
          done, contents := done + {item.name}, contents[item.name := item.content];
          ValidIs(this);
          ReadyFolds(this);
          ValidIsKept(this);
        }
    }

    /** ExtractSection: all entries of the stream are taken as Feed says. */
    method ExtractSection(stream: Tar.Stream, decider: Decider) returns (err: Option<Failure>)
      requires Ready() && decider.index == IndexOf(entries)
      modifies volume, this`done, this`contents
      ensures err == Some(VolumeFailed(Refused)) ==> volume.refused
      ensures Kept() && (IsEmpty(volume.fold, dest, before) ==> !Conflicts(err))
      ensures verifyOnly ==> volume.nodes == old(volume.nodes)
      ensures err.None? ==> Ready() && Feed(decider, digest, Tar.Received(codec, stream), old(contents)) == Some(contents)
      ensures err == Some(Damaged) ==> Feed(decider, digest, Tar.Received(codec, stream), old(contents)).None?
      ensures err.Some? ==> !err.value.Missing?
      ensures err == Some(BadPath) ==> isRoot
    {
      hide *;
      ReadyFolds(this);
      ValidIsKept(this);
      NoConflict();
      ConflictsUnfolds(Damaged);
      var section := Tar.Received(codec, stream);
      FeedUnfolds(decider, digest, section, contents);
      TakeNothing(decider, digest, contents);
      for i := 0 to |section.items|
        invariant Ready() && Kept() && (verifyOnly ==> volume.nodes == old(volume.nodes))
        invariant TakeAll(decider, digest, section.items[..i], old(contents)) == Some(contents)
      {
        TakeOneMore(decider, digest, section.items, i, old(contents));
        err := ExtractItem(decider, section.items[i]);
        if err.Some? {
          if err.value == Damaged {
            RefusedStaysRefused(decider, digest, section.items, i + 1, old(contents));
          }
          return;
        }
      }
      assert section.items[..|section.items|] == section.items;
      return if section.clean then None else Some(Damaged);
    }

    // ------------------------------------------------------------------------ the end

    /** Times and attributes of one directory, when all directories finished
        before are at least as deep. */
    method FinishDirectory(e: M.Entry, ghost finished: set<string>) returns (err: Option<Failure>)
      requires Lawful(volume.fold, dest, entries, isDiff) && Sound(IndexOf(entries), digest, contents)
      requires created == AllDirs(entries) && created <= IndexOf(entries).Keys && contents.Keys <= IndexOf(entries).Keys
      requires Shows(volume.fold, dest, before, volume.nodes, Tree(IndexOf(entries), created, finished, contents))
      requires e in entries && e.kind == M.DirKind && finished <= created
      requires forall q :: q in finished ==> Depth(q) >= Depth(e.path)
      modifies volume
      ensures err == Some(VolumeFailed(Refused)) ==> volume.refused
      ensures Kept() && (err.None? || err.value == VolumeFailed(Refused) || (err.value == BadPath && isRoot))
      ensures err.None? ==> Shows(volume.fold, dest, before, volume.nodes,
                                  Tree(IndexOf(entries), created, finished + {e.path}, contents))
    {
      hide *;
      ghost var tree, n0 := Tree(IndexOf(entries), created, finished, contents), volume.nodes;
      ghost var k := Key(volume.fold, dest, e.path);
      LawfulUnfolds(volume.fold, dest, entries, isDiff);
      ShowsIsContained(volume.fold, dest, before, n0, tree);
      KeptFolds(this);
      DirIsBare(volume.fold, dest, entries, isDiff, digest, created, finished, contents, e);
      ShowsAt(volume.fold, dest, before, n0, tree, e.path);
      KeyUnfolds(volume.fold, dest, e.path);
      TargetPathIs(dest, isRoot, e.path);
      var p := TargetPath(dest, isRoot, e.path);
      if p.None? {
        return Some(BadPath);
      }
      err := Stamp(p.value, k, tree[e.path], e);
      ghost var n :| Step(n0, volume.nodes, k, n);
      NodeChanged(volume.fold, dest, before, n0, volume.nodes, tree, e.path, n);
      KeptFolds(this);
      if err.None? {
        TreeFinishes(volume.fold, dest, entries, isDiff, before, n0, volume.nodes, created, finished, contents, e);
      }
    }

    method FinishDirectories() returns (err: Option<Failure>)
      requires Ready() && !verifyOnly
      modifies volume
      ensures err == Some(VolumeFailed(Refused)) ==> volume.refused
      ensures Kept() && (err.None? || err.value == VolumeFailed(Refused) || (err.value == BadPath && isRoot))
      ensures err.None? ==> Shows(volume.fold, dest, before, volume.nodes,
                                  Tree(IndexOf(entries), AllDirs(entries), AllDirs(entries), contents))
    {
      hide *;
      ReadyFolds(this);
      ValidIs(this);
      ValidIsKept(this);
      AllDirsUnfolds(entries);
      var dirs := DirectoriesOf(entries);
      DeepestFirstSorts(dirs);
      dirs := DeepestFirst(dirs);
      SortedUnfolds(dirs);
      ghost var finished: set<string> := {};
      for i := 0 to |dirs|
        invariant finished <= created && Kept()
        invariant forall q :: q in finished <==> exists j :: 0 <= j < i && dirs[j].path == q
        invariant Shows(volume.fold, dest, before, volume.nodes, Tree(IndexOf(entries), created, finished, contents))
      {
        assert dirs[i] in dirs;
        DirAmong(entries, dirs[i]);
        err := FinishDirectory(dirs[i], finished);
        if err.Some? {
          return;
        }
        finished := finished + {dirs[i].path};
      }
      AllFinished(entries, dirs, finished);
      return None;
    }

    /** Finish: every file that is expected was restored, or the missing ones are
        listed in the order of the manifest; then the directories get their times. */
    method Finish() returns (err: Option<Failure>)
      requires Ready()
      modifies volume, this`failures
      ensures err == Some(VolumeFailed(Refused)) ==> volume.refused
      ensures Kept()
      ensures var missing := MissingFrom(entries, ownOnly, done);
              if missing != [] then err == Some(Missing(missing)) && failures == missing
              else err.None? || err.value == VolumeFailed(Refused) || (err.value == BadPath && isRoot)
      ensures verifyOnly ==> volume.nodes == old(volume.nodes)
      ensures err.None? && !verifyOnly ==>
                Shows(volume.fold, dest, before, volume.nodes,
                      Tree(IndexOf(entries), AllDirs(entries), AllDirs(entries), contents))
    {
      hide *;
      ReadyFolds(this);
      ValidIsContained(this);
      KeptFolds(this);
      var missing := FindMissing(entries, ownOnly, done);
      if |missing| > 0 {
        failures := missing;
        KeptFolds(this);
        return Some(Missing(missing));
      }
      if verifyOnly {
        return None;
      }
      err := FinishDirectories();
    }
  }

  /** The files Finish reports as missing. */
  function MissingFrom(entries: seq<M.Entry>, ownOnly: bool, done: set<string>): seq<string> {
    if |entries| == 0 then []
    else
      var e := entries[|entries| - 1];
      MissingFrom(entries[..|entries| - 1], ownOnly, done) +
      (if e.kind != M.FileKind || (ownOnly && !e.HasContentInSet()) || e.path in done then [] else [e.path])
  }

  method FindMissing(entries: seq<M.Entry>, ownOnly: bool, done: set<string>) returns (missing: seq<string>)
    ensures missing == MissingFrom(entries, ownOnly, done)
  {
    hide *;
    MissingNothing(entries, ownOnly, done);
    missing := [];
    for i := 0 to |entries|
      invariant missing == MissingFrom(entries[..i], ownOnly, done)
    {
      MissingNext(entries, i, ownOnly, done);
      if entries[i].kind != M.FileKind || (ownOnly && !entries[i].HasContentInSet()) {
        continue;
      }
      if entries[i].path !in done {
        missing := missing + [entries[i].path];
      }
    }
    assert entries[..|entries|] == entries;
  }

  method DirectoriesOf(entries: seq<M.Entry>) returns (dirs: seq<M.Entry>)
    ensures forall e :: e in dirs <==> e in entries && e.kind == M.DirKind
  {
    dirs := [];
    for i := 0 to |entries|
      invariant forall e :: e in dirs <==> e in entries[..i] && e.kind == M.DirKind
    {
      InPrefix(entries, i);
      if entries[i].kind == M.DirKind {
        dirs := dirs + [entries[i]];
      }
    }
    assert entries[..|entries|] == entries;
  }

  lemma MissingNothing(entries: seq<M.Entry>, ownOnly: bool, done: set<string>)
    ensures MissingFrom(entries[..0], ownOnly, done) == []
  {
  }

  lemma MissingNext(entries: seq<M.Entry>, i: nat, ownOnly: bool, done: set<string>)
    requires i < |entries|
    ensures MissingFrom(entries[..i + 1], ownOnly, done) ==
            if entries[i].kind != M.FileKind || (ownOnly && !entries[i].HasContentInSet()) || entries[i].path in done
            then MissingFrom(entries[..i], ownOnly, done)
            else MissingFrom(entries[..i], ownOnly, done) + [entries[i].path]
  {
    assert entries[..i + 1][..i] == entries[..i];
  }

  /** Nothing is missing exactly when every expected file was restored. */
  lemma {:induction false} NothingMissing(entries: seq<M.Entry>, ownOnly: bool, done: set<string>)
    ensures MissingFrom(entries, ownOnly, done) == [] <==>
            forall e :: e in entries && e.kind == M.FileKind && (ownOnly ==> e.HasContentInSet()) ==> e.path in done
  {
    if |entries| > 0 {
      var n := |entries| - 1;
      NothingMissing(entries[..n], ownOnly, done);
      assert entries == entries[..n] + [entries[n]];
    }
  }

  lemma DirIsBare(fold: char -> char, dest: string, entries: seq<M.Entry>, isDiff: bool, digest: Bytes -> string,
                  created: set<string>, finished: set<string>, contents: Contents, e: M.Entry)
    requires Lawful(fold, dest, entries, isDiff) && Sound(IndexOf(entries), digest, contents)
    requires created == AllDirs(entries) && created <= IndexOf(entries).Keys && contents.Keys <= IndexOf(entries).Keys
    requires e in entries && e.kind == M.DirKind
    ensures IndexOf(entries)[e.path] == e && e.path in created && e.path !in contents && Paths.ValidatePath(e.path).None?
    ensures e.path in Tree(IndexOf(entries), created, finished, contents)
  {
    hide IndexOf, M.ValidEntries, Paths.ValidatePath, M.Fold, Paths.PlainPath;
    LawfulUnfolds(fold, dest, entries, isDiff);
    ValidIsDistinct(fold, entries, isDiff);
    IndexHolds(entries);
    EntryHasDir(fold, entries, isDiff, e.path);
    var i :| 0 <= i < |entries| && entries[i] == e;
    assert entries[i].path in M.DirsBefore(entries, |entries|);
  }

  lemma ShowsAt(fold: char -> char, dest: string, before: Nodes, now: Nodes, tree: Nodes, p: string)
    requires Shows(fold, dest, before, now, tree) && p in tree
    ensures var k := Key(fold, dest, p); k in now && now[k] == tree[p] && k !in before
  {
    hide Key;
  }

  lemma NodeChanged(fold: char -> char, dest: string, before: Nodes, now: Nodes, next: Nodes, tree: Nodes,
                    p: string, n: Node)
    requires M.Folding(fold) && Shows(fold, dest, before, now, tree) && p in tree
    requires Step(now, next, Key(fold, dest, p), n)
    ensures Contained(fold, dest, before, next)
  {
    hide *;
    ShowsAt(fold, dest, before, now, tree, p);
    ShowsIsContained(fold, dest, before, now, tree);
    ContainedStep(fold, dest, before, now, next, p, n);
  }

  lemma FinishedDir(e: M.Entry, node: Node)
    requires node == NEW_DIR || node == DirNode(e)
    ensures Flagged(Stamped(node, e.creationTime, e.modTime), e.attributes & M.ATTR_MASK) == DirNode(e)
  {
  }

  /** Finishing a directory keeps the finished ones, because they are not above it. */
  lemma TreeFinishes(fold: char -> char, dest: string, entries: seq<M.Entry>, isDiff: bool, before: Nodes, now: Nodes,
                     next: Nodes, created: set<string>, finished: set<string>, contents: Contents, e: M.Entry)
    requires Lawful(fold, dest, entries, isDiff) && finished <= created
    requires created <= IndexOf(entries).Keys && contents.Keys <= IndexOf(entries).Keys
    requires e.path in created && e.path !in contents && IndexOf(entries)[e.path] == e
    requires Shows(fold, dest, before, now, Tree(IndexOf(entries), created, finished, contents))
    requires forall q :: q in finished ==> Depth(q) >= Depth(e.path)
    requires var tree := Tree(IndexOf(entries), created, finished, contents);
             && e.path in tree
             && Step(now, next, Key(fold, dest, e.path),
                     Flagged(Stamped(tree[e.path], e.creationTime, e.modTime), e.attributes & M.ATTR_MASK))
    ensures Shows(fold, dest, before, next, Tree(IndexOf(entries), created, finished + {e.path}, contents))
  {
    hide *;
    var index := IndexOf(entries);
    var tree := Tree(index, created, finished, contents);
    TreeHas(index, created, finished, contents);
    FinishedDir(e, tree[e.path]);
    TreeWithFinished(index, created, finished, contents, e.path);
    LawfulUnfolds(fold, dest, entries, isDiff);
    forall q | q in tree && q != e.path
      ensures Key(fold, dest, q) != Key(fold, dest, e.path)
      ensures tree[q].Dir? && IsBelow(Key(fold, dest, e.path), Key(fold, dest, q)) ==> tree[q].written == Now
    {
      KeysOfTree(fold, dest, entries, isDiff, e.path, q);
      if q in finished {
        BelowIsDeeper(fold, dest, e.path, q);
      }
    }
    ShowsStep(fold, dest, before, now, next, tree, e.path, DirNode(e));
  }

  lemma TreeHas(index: Index, created: set<string>, finished: set<string>, contents: Contents)
    requires created <= index.Keys && contents.Keys <= index.Keys
    ensures var tree := Tree(index, created, finished, contents);
            && tree.Keys == created + contents.Keys
            && (forall q :: q in created && q !in contents ==>
                  tree[q] == if q in finished then DirNode(index[q]) else NEW_DIR)
            && (forall q :: q in tree && q !in finished && tree[q].Dir? ==> tree[q].written == Now)
  {
  }

  lemma AllDirsUnfolds(entries: seq<M.Entry>)
    ensures AllDirs(entries) == M.DirsBefore(entries, |entries|)
  {
  }

  lemma InPrefix(entries: seq<M.Entry>, i: nat)
    requires i < |entries|
    ensures forall e :: e in entries[..i + 1] <==> e in entries[..i] || e == entries[i]
  {
    assert entries[..i + 1] == entries[..i] + [entries[i]];
  }

  lemma SortedUnfolds(dirs: seq<M.Entry>)
    requires Sorted(dirs)
    ensures forall i, j :: 0 <= i < j < |dirs| ==> Depth(dirs[i].path) >= Depth(dirs[j].path)
  {
  }

  lemma DirAmong(entries: seq<M.Entry>, e: M.Entry)
    requires e in entries && e.kind == M.DirKind
    ensures e.path in AllDirs(entries)
  {
  }

  lemma AllFinished(entries: seq<M.Entry>, dirs: seq<M.Entry>, finished: set<string>)
    requires forall e :: e in dirs <==> e in entries && e.kind == M.DirKind
    requires forall q :: q in finished <==> exists j :: 0 <= j < |dirs| && dirs[j].path == q
    ensures finished == AllDirs(entries)
  {
    forall q | q in AllDirs(entries)
      ensures q in finished
    {
      var i :| 0 <= i < |entries| && entries[i].kind == M.DirKind && entries[i].path == q;
      assert entries[i] in dirs;
    }
    forall q | q in finished
      ensures q in AllDirs(entries)
    {
      var j :| 0 <= j < |dirs| && dirs[j].path == q;
      assert dirs[j] in dirs;
    }
  }

  lemma FeedUnfolds(decider: Decider, digest: Bytes -> string, section: Tar.Section, contents: Contents)
    ensures Feed(decider, digest, section, contents) ==
            if section.clean then TakeAll(decider, digest, section.items, contents) else None
  {
    hide TakeAll;
  }

  lemma TakeNothing(decider: Decider, digest: Bytes -> string, contents: Contents)
    ensures TakeAll(decider, digest, [], contents) == Some(contents)
  {
  }

  lemma TakeOneMore(decider: Decider, digest: Bytes -> string, items: seq<Tar.Item>, i: nat, contents: Contents)
    requires i < |items|
    ensures var before := TakeAll(decider, digest, items[..i], contents);
            TakeAll(decider, digest, items[..i + 1], contents) ==
            if before.None? then None else Take(decider, digest, items[i], before.value)
  {
    hide Take;
    assert items[..i + 1][..i] == items[..i];
  }

  lemma TakeUnfolds(decider: Decider, digest: Bytes -> string, item: Tar.Item, contents: Contents)
    ensures Take(decider, digest, item, contents) ==
            if !item.regular then None
            else
              match decider.For(item.name)
              case Refuse => None
              case Pass => if Tar.Complete(item) then Some(contents) else None
              case Extract(e) =>
                if e.kind != M.FileKind || e.path != item.name || item.name in contents || item.size != e.size
                   || !Tar.Complete(item) || digest(item.content) != e.hash then None
                else Some(contents[item.name := item.content])
  {
  }

  lemma ExtractsIndexed(decider: Decider, name: string)
    requires decider.For(name).Extract?
    ensures name in decider.index && decider.index[name] == decider.For(name).entry
  {
  }

  lemma CompleteFolds(item: Tar.Item)
    ensures Tar.Complete(item) <==> item.regular && |item.content| == item.size
  {
  }

  lemma FinishedFile(e: M.Entry, content: Bytes)
    ensures Flagged(Stamped(File(Now, Now, 0, content), e.creationTime, e.modTime), e.attributes & M.ATTR_MASK)
            == FileNode(e, content)
  {
  }

  lemma StillContained(r: Restorer, was: Nodes, p: string)
    requires M.Folding(r.volume.fold) && Contained(r.volume.fold, r.dest, r.before, was)
    requires var k := Key(r.volume.fold, r.dest, p);
             r.volume.nodes == was || (k !in was && exists n :: Step(was, r.volume.nodes, k, n))
    ensures Contained(r.volume.fold, r.dest, r.before, r.volume.nodes) && r.Kept()
  {
    hide *;
    var k := Key(r.volume.fold, r.dest, p);
    if r.volume.nodes != was {
      NotBefore(r.volume.fold, r.dest, r.before, was, k);
      var n :| Step(was, r.volume.nodes, k, n);
      ContainedStep(r.volume.fold, r.dest, r.before, was, r.volume.nodes, p, n);
    }
    KeptFolds(r);
  }

  lemma NotBefore(fold: char -> char, dest: string, before: Nodes, now: Nodes, k: string)
    requires Contained(fold, dest, before, now) && k !in now
    ensures k !in before
  {
  }

  /** A file that is not yet restored has its directory and a free place. */
  lemma FileIsFree(fold: char -> char, dest: string, entries: seq<M.Entry>, isDiff: bool, before: Nodes, now: Nodes,
                   created: set<string>, contents: Contents, p: string)
    requires Lawful(fold, dest, entries, isDiff) && IsEmpty(fold, dest, before)
    requires created == M.DirsBefore(entries, |entries|) && created <= IndexOf(entries).Keys
    requires contents.Keys <= IndexOf(entries).Keys
    requires forall q :: q in contents ==> IndexOf(entries)[q].kind == M.FileKind
    requires Shows(fold, dest, before, now, Tree(IndexOf(entries), created, {}, contents))
    requires p in IndexOf(entries) && p !in contents && IndexOf(entries)[p].kind == M.FileKind
    ensures Key(fold, dest, p) !in now && HasParent(now, Key(fold, dest, p))
  {
    hide *;
    LawfulUnfolds(fold, dest, entries, isDiff);
    DirsAreIndexed(fold, entries, isDiff, |entries|);
    EntryHasDir(fold, entries, isDiff, p);
    BareDirs(IndexOf(entries), created, contents);
    PlaceIsFree(fold, dest, entries, isDiff, before, now, Tree(IndexOf(entries), created, {}, contents), p);
  }

  lemma EntryHasDir(fold: char -> char, entries: seq<M.Entry>, isDiff: bool, p: string)
    requires M.ValidEntries(fold, entries, isDiff) && p in IndexOf(entries)
    ensures Paths.ValidatePath(p).None?
    ensures Paths.Dir(p) == "." || Paths.Dir(p) in M.DirsBefore(entries, |entries|)
  {
    ValidIsDistinct(fold, entries, isDiff);
    IndexHolds(entries);
    hide IndexOf, Paths.ValidatePath, Paths.Dir, M.Fold;
    var i :| 0 <= i < |entries| && entries[i] == IndexOf(entries)[p];
    assert M.EntryFits(fold, entries, isDiff, i);
  }

  /** The file that was written belongs to the tree. */
  lemma FileTaken(r: Restorer, was: Nodes, decider: Decider, item: Tar.Item)
    requires Lawful(r.volume.fold, r.dest, r.entries, r.isDiff) && decider.index == IndexOf(r.entries)
    requires r.created <= IndexOf(r.entries).Keys && r.contents.Keys <= IndexOf(r.entries).Keys
    requires Sound(decider.index, r.digest, r.contents)
    requires Take(decider, r.digest, item, r.contents).Some? && decider.For(item.name).Extract?
    requires item.name in IndexOf(r.entries) && item.name !in r.contents
    requires var fold, k := r.volume.fold, Key(r.volume.fold, r.dest, item.name);
             if r.verifyOnly then r.volume.nodes == was && was == r.before
             else
               && Shows(fold, r.dest, r.before, was, Tree(IndexOf(r.entries), r.created, {}, r.contents))
               && k !in was
               && Step(was, r.volume.nodes, k, FileNode(IndexOf(r.entries)[item.name], item.content))
    ensures Sound(decider.index, r.digest, r.contents[item.name := item.content])
    ensures !r.verifyOnly ==>
              Shows(r.volume.fold, r.dest, r.before, r.volume.nodes,
                    Tree(IndexOf(r.entries), r.created, {}, r.contents)
                    [item.name := FileNode(IndexOf(r.entries)[item.name], item.content)])
  {
    hide *;
    TakeUnfolds(decider, r.digest, item, r.contents);
    TakeIsSound(decider, r.digest, item, r.contents);
    if !r.verifyOnly {
      var tree := Tree(IndexOf(r.entries), r.created, {}, r.contents);
      BareTree(IndexOf(r.entries), r.created, r.contents);
      TreeGrows(r.volume.fold, r.dest, r.entries, r.isDiff, r.before, was, r.volume.nodes, tree, item.name,
                FileNode(IndexOf(r.entries)[item.name], item.content));
    }
  }

  lemma NoStep(nodes: Nodes, k: string)
    requires k in nodes
    ensures Step(nodes, nodes, k, nodes[k])
  {
  }

  lemma StepHolds(a: Nodes, b: Nodes, k: string, node: Node)
    requires Step(a, b, k, node)
    ensures k in b && b[k] == node
  {
  }

  lemma NewNode(a: Nodes, b: Nodes, k: string)
    requires Step(a, b, k, NEW_FILE)
    ensures k in b && b[k] == NEW_FILE && b[k].File?
  {
  }

  lemma WrittenNode(a: Nodes, b: Nodes, c: Nodes, k: string, data: Bytes, whole: bool)
    requires Step(a, b, k, NEW_FILE) && k in b && b[k] == NEW_FILE && b[k].File?
    requires exists n :: 0 <= n <= |data| && (whole ==> n == |data|)
                         && Step(b, c, k, b[k].(content := b[k].content + data[..n], written := Now))
    ensures exists n :: Step(a, c, k, n)
    ensures whole ==> Step(a, c, k, File(Now, Now, 0, data))
  {
    hide Step;
    var n :| 0 <= n <= |data| && (whole ==> n == |data|)
             && Step(b, c, k, b[k].(content := b[k].content + data[..n], written := Now));
    assert [] + data[..n] == data[..n];
    StepsCompose(a, b, c, k, NEW_FILE, File(Now, Now, 0, data[..n]));
    if whole {
      assert data[..n] == data;
    }
  }

  lemma NoDirs(entries: seq<M.Entry>)
    ensures M.DirsBefore(entries, 0) == {}
  {
  }

  lemma AddOther(entries: seq<M.Entry>, i: nat)
    requires i < |entries|
    ensures entries[i].kind != M.DirKind ==> M.DirsBefore(entries, i + 1) == M.DirsBefore(entries, i)
  {
  }

  lemma ReadyFolds(r: Restorer)
    ensures r.Ready() <==> r.Valid() && (r.verifyOnly || r.created == M.DirsBefore(r.entries, |r.entries|))
  {
  }

  lemma ValidIs(r: Restorer)
    ensures r.Valid() <==>
            && Lawful(r.volume.fold, r.dest, r.entries, r.isDiff)
            && r.done == r.contents.Keys && Sound(IndexOf(r.entries), r.digest, r.contents)
            && r.created <= AllDirs(r.entries) && r.created <= IndexOf(r.entries).Keys
            && r.contents.Keys <= IndexOf(r.entries).Keys
            && if r.verifyOnly then r.volume.nodes == r.before
               else Shows(r.volume.fold, r.dest, r.before, r.volume.nodes, Tree(IndexOf(r.entries), r.created, {}, r.contents))
  {
    hide Lawful, Sound, IndexOf, AllDirs, Shows, Tree;
  }

  lemma ValidIsKept(r: Restorer)
    requires r.Valid()
    ensures r.Kept()
  {
    hide *;
    ValidIsContained(r);
    KeptFolds(r);
  }

  lemma ValidIsContained(r: Restorer)
    requires r.Valid()
    ensures Contained(r.volume.fold, r.dest, r.before, r.volume.nodes)
  {
    hide *;
    ValidIs(r);
    LawfulUnfolds(r.volume.fold, r.dest, r.entries, r.isDiff);
    if r.verifyOnly {
      ContainedRefl(r.volume.fold, r.dest, r.before);
    } else {
      ShowsIsContained(r.volume.fold, r.dest, r.before, r.volume.nodes, Tree(IndexOf(r.entries), r.created, {}, r.contents));
    }
  }

  lemma KeptFolds(r: Restorer)
    requires Contained(r.volume.fold, r.dest, r.before, r.volume.nodes)
    ensures r.Kept()
  {
  }

  lemma LawfulUnfolds(fold: char -> char, dest: string, entries: seq<M.Entry>, isDiff: bool)
    requires Lawful(fold, dest, entries, isDiff)
    ensures M.Folding(fold) && M.ValidEntries(fold, entries, isDiff) && Paths.PlainPath(dest)
  {
  }

  lemma KeyUnfolds(fold: char -> char, dest: string, p: string)
    ensures Key(fold, dest, p) == M.Fold(fold, dest + "/" + p)
  {
  }

  lemma NoConflict()
    ensures !Conflicts(None)
  {
  }

  lemma ConflictsUnfolds(f: Failure)
    ensures Conflicts(Some(f)) <==> f == VolumeFailed(Exists) || f == VolumeFailed(NoParent) || f == VolumeFailed(NotFound)
  {
  }

  /** Entry i is a new path for the tree of the directories before it. */
  lemma DirectoryIsNew(fold: char -> char, dest: string, entries: seq<M.Entry>, isDiff: bool, i: nat)
    requires Lawful(fold, dest, entries, isDiff) && i < |entries| && entries[i].kind == M.DirKind
    ensures var p := entries[i].path;
            && p in IndexOf(entries) && IndexOf(entries)[p] == entries[i] && p !in M.DirsBefore(entries, i)
            && Paths.ValidatePath(p).None?
            && (Paths.Dir(p) == "." || Paths.Dir(p) in M.DirsBefore(entries, i))
            && M.DirsBefore(entries, i + 1) == M.DirsBefore(entries, i) + {p}
  {
    hide IndexOf, Paths.ValidatePath, Paths.Dir, Paths.PlainPath, M.Fold, M.Folding;
    ValidIsDistinct(fold, entries, isDiff);
    IndexHolds(entries);
    assert M.EntryFits(fold, entries, isDiff, i);
  }

  lemma DirectoryIsFree(fold: char -> char, dest: string, entries: seq<M.Entry>, isDiff: bool, before: Nodes, now: Nodes, i: nat)
    requires Lawful(fold, dest, entries, isDiff) && i < |entries| && entries[i].kind == M.DirKind
    requires IsEmpty(fold, dest, before) && M.DirsBefore(entries, i) <= IndexOf(entries).Keys
    requires Shows(fold, dest, before, now, Tree(IndexOf(entries), M.DirsBefore(entries, i), {}, map[]))
    ensures Key(fold, dest, entries[i].path) !in now && HasParent(now, Key(fold, dest, entries[i].path))
  {
    hide *;
    DirectoryIsNew(fold, dest, entries, isDiff, i);
    LawfulUnfolds(fold, dest, entries, isDiff);
    BareDirs(IndexOf(entries), M.DirsBefore(entries, i), map[]);
    PlaceIsFree(fold, dest, entries, isDiff, before, now, Tree(IndexOf(entries), M.DirsBefore(entries, i), {}, map[]),
                entries[i].path);
  }

  lemma BareDirs(index: Index, created: set<string>, contents: Contents)
    requires created <= index.Keys && contents.Keys <= index.Keys
    ensures var tree := Tree(index, created, {}, contents);
            tree.Keys == created + contents.Keys && forall p :: p in created && p !in contents ==> tree[p].Dir?
  {
  }

  lemma ContainedRefl(fold: char -> char, dest: string, nodes: Nodes)
    ensures Contained(fold, dest, nodes, nodes)
  {
  }

  // ---------------------------------------------------------------------- the theorem

  /** What a restore into an empty destination that ended without an error left
      there: the files and directories of the manifest and nothing else; files
      with the recorded size, hash and attributes; and every entry, also a
      directory into which files were written later, has its recorded times
      exactly when neither of them is zero. */
  lemma RestoredExactly(fold: char -> char, dest: string, entries: seq<M.Entry>, isDiff: bool, digest: Bytes -> string,
                        before: Nodes, now: Nodes, contents: Contents)
    requires Lawful(fold, dest, entries, isDiff) && IsEmpty(fold, dest, before)
    requires AllDirs(entries) <= IndexOf(entries).Keys && contents.Keys <= IndexOf(entries).Keys
    requires Sound(IndexOf(entries), digest, contents) && MissingFrom(entries, false, contents.Keys) == []
    requires Shows(fold, dest, before, now, Tree(IndexOf(entries), AllDirs(entries), AllDirs(entries), contents))
    ensures forall e :: e in entries && e.kind == M.FileKind ==>
              var k := Key(fold, dest, e.path);
              && k in now && e.path in contents && now[k] == FileNode(e, contents[e.path])
              && |contents[e.path]| == e.size && digest(contents[e.path]) == e.hash
              && (HasTimes(now[k], e) <==> e.creationTime != 0 && e.modTime != 0)
    ensures forall e :: e in entries && e.kind == M.DirKind ==>
              var k := Key(fold, dest, e.path);
              && k in now && now[k] == DirNode(e)
              && (HasTimes(now[k], e) <==> e.creationTime != 0 && e.modTime != 0)
    ensures forall k :: k in now && IsBelow(k, M.Fold(fold, dest)) ==>
              exists e :: e in entries && (e.kind == M.FileKind || e.kind == M.DirKind) && Key(fold, dest, e.path) == k
  {
    hide *;
    var index, dirs := IndexOf(entries), AllDirs(entries);
    var tree := Tree(index, dirs, dirs, contents);
    LawfulUnfolds(fold, dest, entries, isDiff);
    ValidIsDistinct(fold, entries, isDiff);
    IndexHolds(entries);
    NothingMissing(entries, false, contents.Keys);
    SoundUnfolds(index, digest, contents);
    TreeHas(index, dirs, dirs, contents);
    TreeFiles(index, dirs, dirs, contents);
    AllDirsUnfolds(entries);
    DirsAreIndexed(fold, entries, isDiff, |entries|);
    forall e | e in entries && e.kind == M.DirKind
      ensures Key(fold, dest, e.path) in now && now[Key(fold, dest, e.path)] == DirNode(e)
      ensures HasTimes(DirNode(e), e) <==> e.creationTime != 0 && e.modTime != 0
    {
      TimesAreRestored(e, []);
      DirAmong(entries, e);
      ShowsAt(fold, dest, before, now, tree, e.path);
    }
    forall e | e in entries && e.kind == M.FileKind
      ensures Key(fold, dest, e.path) in now && now[Key(fold, dest, e.path)] == FileNode(e, contents[e.path])
      ensures HasTimes(FileNode(e, contents[e.path]), e) <==> e.creationTime != 0 && e.modTime != 0
    {
      TimesAreRestored(e, contents[e.path]);
      ShowsAt(fold, dest, before, now, tree, e.path);
    }
    forall k | k in now && IsBelow(k, M.Fold(fold, dest))
      ensures exists e :: e in entries && (e.kind == M.FileKind || e.kind == M.DirKind) && Key(fold, dest, e.path) == k
    {
      var p := ShownBelow(fold, dest, before, now, tree, k);
      assert index[p] in entries;
    }
  }

  lemma SoundUnfolds(index: Index, digest: Bytes -> string, contents: Contents)
    requires Sound(index, digest, contents)
    ensures forall p :: p in contents ==>
              && p in index && index[p].path == p && index[p].kind == M.FileKind
              && index[p].size == |contents[p]| && index[p].hash == digest(contents[p])
  {
  }

  lemma TreeFiles(index: Index, created: set<string>, finished: set<string>, contents: Contents)
    requires created <= index.Keys && contents.Keys <= index.Keys
    ensures forall p :: p in contents ==> Tree(index, created, finished, contents)[p] == FileNode(index[p], contents[p])
  {
  }

  lemma ShownBelow(fold: char -> char, dest: string, before: Nodes, now: Nodes, tree: Nodes, k: string) returns (p: string)
    requires IsEmpty(fold, dest, before) && Shows(fold, dest, before, now, tree)
    requires k in now && IsBelow(k, M.Fold(fold, dest))
    ensures p in tree && Key(fold, dest, p) == k
  {
    hide Key, IsBelow, M.Fold;
    p :| p in tree && Key(fold, dest, p) == k;
  }
}
