/** Which files a run reads: a differential leaves alone exactly those that equal
    their entry of the full backup in size, last-write time and change time. */
module Reuse {
  import opened Wrappers
  import opened Walk
  import opened WalkLaws
  import opened WalkMeasure
  import M = Manifest
  import Paths

  // ------------------------------------------------------------------- files of a source

  /** A file that the run looks at, with its path. */
  type Reached = (string, Node)

  function NodeFiles(cfg: Config, dir: string, node: Node): (r: seq<Reached>)
    ensures forall i :: 0 <= i < |r| ==> r[i].1.File?
    decreases node, 0
  {
    var path := Paths.Child(dir, node.name);
    if cfg.isExcluded(path) || cfg.matches(path, node.Dir?) || node.info.Some? then []
    else
      match node
      case Special(_, _) => []
      case File(_, _, _, _, _, _) => [(path, node)]
      case Dir(_, _, stat, listing, children) =>
        if stat.Known? && listing.None? then TreeFiles(cfg, path, children) else []
  }

  function TreeFiles(cfg: Config, dir: string, nodes: seq<Node>): (r: seq<Reached>)
    ensures forall i :: 0 <= i < |r| ==> r[i].1.File?
    decreases nodes
  {
    if |nodes| == 0 then [] else NodeFiles(cfg, dir, nodes[0]) + TreeFiles(cfg, dir, nodes[1..])
  }

  /** Size, last-write time and change time are those of the full backup. */
  predicate IsSameAsBase(cfg: Config, path: string, f: Node)
    requires f.File?
  {
    && cfg.base.Some? && path in cfg.base.value && f.stat.Known?
    && cfg.base.value[path].size == f.listedSize
    && cfg.base.value[path].modTime == f.stat.meta.modTime
    && cfg.base.value[path].changeTime == f.stat.meta.changeTime
  }

  /** Reading gives as many bytes as the size at opening, and nothing shows that there
      are more. */
  predicate IsIntact(f: Node)
    requires f.File?
  {
    f.opening.Opened? &&
    var end := f.opening.failure;
    || (f.opening.size == |f.content| && (end.None? || end.value.0 >= |f.content|))
    || (end.Some? && end.value.0 == f.opening.size < |f.content|)
  }

  function KeptPaths(cfg: Config, files: seq<Reached>): seq<string>
    requires forall i :: 0 <= i < |files| ==> files[i].1.File?
  {
    if |files| == 0 then []
    else (if IsSameAsBase(cfg, files[0].0, files[0].1) then [files[0].0] else []) + KeptPaths(cfg, files[1..])
  }

  function StoredPaths(cfg: Config, files: seq<Reached>): seq<string>
    requires forall i :: 0 <= i < |files| ==> files[i].1.File?
  {
    if |files| == 0 then []
    else
      (if !IsSameAsBase(cfg, files[0].0, files[0].1) && IsIntact(files[0].1) then [files[0].0] else [])
      + StoredPaths(cfg, files[1..])
  }

  // ------------------------------------------------------------------ entries of a manifest

  /** The path of a file whose content is here. */
  function OfContent(e: M.Entry): seq<string> { if e.kind == M.FileKind && e.offset.Some? then [e.path] else [] }

  /** The path of a file that is only referred to, and up to date. */
  function OfReference(e: M.Entry): seq<string> {
    if e.kind == M.FileKind && e.offset.None? && !e.stale then [e.path] else []
  }

  function ContentPaths(entries: seq<M.Entry>): seq<string> {
    if |entries| == 0 then [] else OfContent(entries[0]) + ContentPaths(entries[1..])
  }

  function ReferencePaths(entries: seq<M.Entry>): seq<string> {
    if |entries| == 0 then [] else OfReference(entries[0]) + ReferencePaths(entries[1..])
  }

  lemma {:induction false} EntryPathsConcat(a: seq<M.Entry>, b: seq<M.Entry>)
    ensures ContentPaths(a + b) == ContentPaths(a) + ContentPaths(b)
    ensures ReferencePaths(a + b) == ReferencePaths(a) + ReferencePaths(b)
    decreases |a|
  {
    hide OfContent, OfReference;
    if |a| == 0 {
      assert a + b == b;
    } else {
      assert (a + b)[1..] == a[1..] + b;
      EntryPathsConcat(a[1..], b);
    }
  }

  lemma PathsOfEntry(e: M.Entry)
    ensures ContentPaths([e]) == OfContent(e) && ReferencePaths([e]) == OfReference(e)
    ensures ContentPaths([]) == ReferencePaths([]) == []
  {
    assert [e][1..] == [];
    hide OfContent, OfReference;
  }

  lemma {:induction false} FilePathsConcat(cfg: Config, a: seq<Reached>, b: seq<Reached>)
    requires forall i :: 0 <= i < |a| ==> a[i].1.File?
    requires forall i :: 0 <= i < |b| ==> b[i].1.File?
    ensures KeptPaths(cfg, a + b) == KeptPaths(cfg, a) + KeptPaths(cfg, b)
    ensures StoredPaths(cfg, a + b) == StoredPaths(cfg, a) + StoredPaths(cfg, b)
    decreases |a|
  {
    hide IsSameAsBase, IsIntact;
    if |a| == 0 {
      assert a + b == b;
    } else {
      assert (a + b)[1..] == a[1..] + b;
      FilePathsConcat(cfg, a[1..], b);
    }
  }

  /** What a piece of the run stored and referred to, and how it counted that. */
  ghost predicate Reads(cfg: Config, p: Piece, files: seq<Reached>)
    requires forall i :: 0 <= i < |files| ==> files[i].1.File?
  {
    && ContentPaths(p.entries) == StoredPaths(cfg, files) && p.stats.stored == |StoredPaths(cfg, files)|
    && ReferencePaths(p.entries) == KeptPaths(cfg, files) && p.stats.unmodified == |KeptPaths(cfg, files)|
  }

  lemma ReadsAppend(cfg: Config, p: Piece, files: seq<Reached>, q: Piece, files': seq<Reached>)
    requires forall i :: 0 <= i < |files| ==> files[i].1.File?
    requires forall i :: 0 <= i < |files'| ==> files'[i].1.File?
    requires Reads(cfg, p, files) && Reads(cfg, q, files')
    ensures Reads(cfg, Append(p, q), files + files')
  {
    EntryPathsConcat(p.entries, q.entries);
    FilePathsConcat(cfg, files, files');
    hide ContentPaths, ReferencePaths, StoredPaths, KeptPaths;
  }

  /** At most one entry, which neither has content nor refers to an up-to-date file. */
  ghost predicate IsQuiet(p: Piece) {
    && (p.entries == [] || exists e :: p.entries == [e] && OfContent(e) == OfReference(e) == [])
    && p.stats.stored == p.stats.unmodified == 0
  }

  lemma ReadsNothing(cfg: Config, p: Piece)
    requires IsQuiet(p)
    ensures Reads(cfg, p, [])
  {
    hide OfContent, OfReference;
    if p.entries != [] {
      var e :| p.entries == [e] && OfContent(e) == OfReference(e) == [];
      PathsOfEntry(e);
    }
  }

  // -------------------------------------------------------------------------------- the walk

  lemma SkipFileIsQuiet(cfg: Config, path: string, reason: string, isVoid: bool)
    ensures IsQuiet(SkipFile(cfg, path, reason, isVoid))
  {
    var p := SkipFile(cfg, path, reason, isVoid);
    assert p.entries == [p.entries[0]];
  }

  lemma AddFileReads(cfg: Config, path: string, f: Node, at: nat)
    requires cfg.Valid() && f.File? && AddFile(cfg, path, f, at).Done?
    ensures Reads(cfg, AddFile(cfg, path, f, at).piece, [(path, f)])
  {
    hide *;
    if IsSameAsBase(cfg, path, f) {
      KeptReads(cfg, path, f, at);
    } else if WriteFile(cfg, path, f, at).Stored? {
      StoredReads(cfg, path, f, at);
    } else {
      SkippedReads(cfg, path, f, at);
    }
  }

  lemma KeptReads(cfg: Config, path: string, f: Node, at: nat)
    requires cfg.Valid() && f.File? && AddFile(cfg, path, f, at).Done? && IsSameAsBase(cfg, path, f)
    ensures Reads(cfg, AddFile(cfg, path, f, at).piece, [(path, f)])
  {
    hide *;
    OneFile(cfg, path, f);
    KeptPiece(cfg, path, f, at);
    var p := AddFile(cfg, path, f, at).piece;
    ReadsOne(cfg, p, p.entries[0], [(path, f)]);
  }

  lemma StoredReads(cfg: Config, path: string, f: Node, at: nat)
    requires f.File? && AddFile(cfg, path, f, at).Done? && !IsSameAsBase(cfg, path, f) && WriteFile(cfg, path, f, at).Stored?
    ensures Reads(cfg, AddFile(cfg, path, f, at).piece, [(path, f)])
  {
    hide *;
    IntactIsStored(cfg, path, f, at);
    OneFile(cfg, path, f);
    StoredPiece(cfg, path, f, at);
    ReadsOne(cfg, AddFile(cfg, path, f, at).piece, WriteFile(cfg, path, f, at).entry, [(path, f)]);
  }

  lemma SkippedReads(cfg: Config, path: string, f: Node, at: nat)
    requires f.File? && AddFile(cfg, path, f, at).Done? && !IsSameAsBase(cfg, path, f) && !WriteFile(cfg, path, f, at).Stored?
    ensures Reads(cfg, AddFile(cfg, path, f, at).piece, [(path, f)])
  {
    hide *;
    IntactIsStored(cfg, path, f, at);
    OneFile(cfg, path, f);
    NotStoredPiece(cfg, path, f, at);
    ReadsNothing(cfg, AddFile(cfg, path, f, at).piece);
    ReadsSame(cfg, AddFile(cfg, path, f, at).piece, [], [(path, f)]);
  }

  lemma OneFile(cfg: Config, path: string, f: Node)
    requires f.File?
    ensures KeptPaths(cfg, [(path, f)]) == if IsSameAsBase(cfg, path, f) then [path] else []
    ensures StoredPaths(cfg, [(path, f)]) == if !IsSameAsBase(cfg, path, f) && IsIntact(f) then [path] else []
    ensures KeptPaths(cfg, []) == StoredPaths(cfg, []) == []
  {
    assert [(path, f)][1..] == [];
    hide IsSameAsBase, IsIntact;
  }

  lemma ReadsSame(cfg: Config, p: Piece, files: seq<Reached>, files': seq<Reached>)
    requires forall i :: 0 <= i < |files| ==> files[i].1.File?
    requires forall i :: 0 <= i < |files'| ==> files'[i].1.File?
    requires Reads(cfg, p, files) && KeptPaths(cfg, files) == KeptPaths(cfg, files')
    requires StoredPaths(cfg, files) == StoredPaths(cfg, files')
    ensures Reads(cfg, p, files')
  {
  }

  lemma ReadsOne(cfg: Config, p: Piece, e: M.Entry, files: seq<Reached>)
    requires forall i :: 0 <= i < |files| ==> files[i].1.File?
    requires p.entries == [e] && OfContent(e) == StoredPaths(cfg, files) && OfReference(e) == KeptPaths(cfg, files)
    requires p.stats.stored == |OfContent(e)| && p.stats.unmodified == |OfReference(e)|
    ensures Reads(cfg, p, files)
  {
    PathsOfEntry(e);
    hide KeptPaths, StoredPaths, OfContent, OfReference;
  }

  lemma KeptPiece(cfg: Config, path: string, f: Node, at: nat)
    requires cfg.Valid() && f.File? && IsSameAsBase(cfg, path, f)
    ensures AddFile(cfg, path, f, at).Done?
    ensures var p := AddFile(cfg, path, f, at).piece;
            && |p.entries| == 1 && p.entries == [p.entries[0]]
            && OfContent(p.entries[0]) == [] && OfReference(p.entries[0]) == [path]
            && p.stats.unmodified == 1 && p.stats.stored == 0
  {
    assert ValidBaseFile(path, cfg.base.value[path]);
    hide WriteFile, SkipFile, Paths.ValidatePath, M.ValidateEntry;
  }

  lemma StoredPiece(cfg: Config, path: string, f: Node, at: nat)
    requires f.File? && !IsSameAsBase(cfg, path, f) && WriteFile(cfg, path, f, at).Stored?
    ensures AddFile(cfg, path, f, at).Done?
    ensures var p, e := AddFile(cfg, path, f, at).piece, WriteFile(cfg, path, f, at).entry;
            && p.entries == [e] && p.stats.unmodified == 0 && p.stats.stored == 1
            && OfContent(e) == [path] && OfReference(e) == []
  {
    IntactIsStored(cfg, path, f, at);
    hide WriteFile, SkipFile;
  }

  lemma IntactIsStored(cfg: Config, path: string, f: Node, at: nat)
    requires f.File?
    ensures WriteFile(cfg, path, f, at).Stored? <==> IsIntact(f)
    ensures WriteFile(cfg, path, f, at).Stored? ==>
              var e := WriteFile(cfg, path, f, at).entry;
              e.path == path && e.kind == M.FileKind && e.offset == Some(at)
  {
    hide Config.Origin;
  }

  lemma NotStoredPiece(cfg: Config, path: string, f: Node, at: nat)
    requires f.File? && AddFile(cfg, path, f, at).Done? && !IsSameAsBase(cfg, path, f) && !WriteFile(cfg, path, f, at).Stored?
    ensures IsQuiet(AddFile(cfg, path, f, at).piece)
  {
    var w := WriteFile(cfg, path, f, at);
    var skip := SkipFile(cfg, path, if w.Broken? then w.reason else w.fault.reason, w.Broken?);
    SkipFileIsQuiet(cfg, path, if w.Broken? then w.reason else w.fault.reason, w.Broken?);
    SkippingAdds(cfg, path, f, at);
    hide WriteFile, SkipFile, OfContent, OfReference, AddFile;
  }

  lemma SkippingAdds(cfg: Config, path: string, f: Node, at: nat)
    requires f.File? && AddFile(cfg, path, f, at).Done? && !IsSameAsBase(cfg, path, f) && !WriteFile(cfg, path, f, at).Stored?
    ensures var p, w := AddFile(cfg, path, f, at).piece, WriteFile(cfg, path, f, at);
            var skip := SkipFile(cfg, path, if w.Broken? then w.reason else w.fault.reason, w.Broken?);
            if w.NotOpened? && w.fault.notExist then p.entries == [] && p.stats.stored == p.stats.unmodified == 0
            else p.entries == skip.entries && p.stats.stored == skip.stats.stored && p.stats.unmodified == skip.stats.unmodified
  {
    hide WriteFile, SkipFile;
    var w := WriteFile(cfg, path, f, at);
    if w.Broken? {
      assert [] + SkipFile(cfg, path, w.reason, true).entries == SkipFile(cfg, path, w.reason, true).entries;
    }
  }

  /** Where the run does not come to a file or into a directory. */
  predicate Stops(cfg: Config, dir: string, node: Node) {
    var path := Paths.Child(dir, node.name);
    || cfg.isExcluded(path) || cfg.matches(path, node.Dir?) || node.info.Some? || node.Special?
    || (node.Dir? && (node.stat.Unknown? || node.listing.Some?))
  }

  lemma StopIsQuiet(cfg: Config, dir: string, node: Node, at: nat)
    requires Visit(cfg, dir, node, at).Done? && Stops(cfg, dir, node)
    ensures IsQuiet(Visit(cfg, dir, node, at).piece) && NodeFiles(cfg, dir, node) == []
  {
    var path := Paths.Child(dir, node.name);
    hide SkipFile, Paths.ValidatePath, Paths.Child, VisitAll, TreeFiles, AddFile, IsQuiet, Append, Skipped, Vanished, Excluded,
      DirEntry, Unread;
    SkippedIsQuiet(path, "");
    if node.info.Some? {
      SkipFileIsQuiet(cfg, path, node.info.value.reason, false);
      UnreadIsQuiet(cfg, path, node.info.value);
    } else if node.Dir? {
      if node.stat.Unknown? {
        UnreadIsQuiet(cfg, path, node.stat.fault);
      } else {
        DirIsQuiet(path, node.stat.meta);
        if node.listing.Some? {
          UnreadIsQuiet(cfg, path, node.listing.value);
        }
      }
    }
  }

  lemma UnreadIsQuiet(cfg: Config, path: string, fault: Fault)
    ensures Unread(cfg, path, fault).Done? ==> IsQuiet(Unread(cfg, path, fault).piece)
  {
    SkippedIsQuiet(path, fault.reason);
    hide IsQuiet, Skipped, Vanished;
  }

  lemma SkippedIsQuiet(path: string, reason: string)
    ensures IsQuiet(Skipped(path, reason, false)) && IsQuiet(NOTHING) && IsQuiet(Excluded()) && IsQuiet(Vanished())
  {
    assert OfContent(M.SkippedEntry(path, reason, false)) == OfReference(M.SkippedEntry(path, reason, false)) == [];
  }

  lemma {:induction false} VisitReads(cfg: Config, dir: string, node: Node, at: nat)
    requires cfg.Valid() && Visit(cfg, dir, node, at).Done?
    ensures Reads(cfg, Visit(cfg, dir, node, at).piece, NodeFiles(cfg, dir, node))
    decreases node, 0
  {
    var path, p := Paths.Child(dir, node.name), Visit(cfg, dir, node, at).piece;
    hide AddFile, SkipFile, Config.Valid, Paths.ValidatePath, Paths.Child, VisitAll, TreeFiles, Append, Reads, IsQuiet, DirEntry;
    if Stops(cfg, dir, node) {
      StopIsQuiet(cfg, dir, node, at);
      ReadsNothing(cfg, p);
    } else if node.File? {
      AddFileReads(cfg, path, node, at);
    } else {
      var here := NOTHING.(entries := [DirEntry(path, node.stat.meta)]);
      DirIsQuiet(path, node.stat.meta);
      ReadsNothing(cfg, here);
      VisitAllReads(cfg, path, node.children, at);
      ReadsAppend(cfg, here, [], VisitAll(cfg, path, node.children, at).piece, TreeFiles(cfg, path, node.children));
      assert [] + TreeFiles(cfg, path, node.children) == TreeFiles(cfg, path, node.children);
    }
  }

  lemma DirIsQuiet(path: string, meta: Meta)
    ensures IsQuiet(NOTHING.(entries := [DirEntry(path, meta)])) && IsQuiet(NOTHING)
    ensures IsQuiet(Append(NOTHING.(entries := [DirEntry(path, meta)]), Vanished()))
  {
    assert [DirEntry(path, meta)] + [] == [DirEntry(path, meta)];
    assert OfContent(DirEntry(path, meta)) == OfReference(DirEntry(path, meta)) == [];
  }

  /** Of every source, under every schedule of read faults: the files whose content a
      run stores are, in order, exactly those that can be read and differ from their
      base entry in size, last-write or change time or have none; those it refers to
      without reading them are exactly the others that equal it; and both are
      counted. */
  lemma {:induction false} VisitAllReads(cfg: Config, dir: string, nodes: seq<Node>, at: nat)
    requires cfg.Valid() && VisitAll(cfg, dir, nodes, at).Done?
    ensures Reads(cfg, VisitAll(cfg, dir, nodes, at).piece, TreeFiles(cfg, dir, nodes))
    decreases nodes
  {
    hide Visit, Append, Size, NodeFiles, Reads, Config.Valid;
    VisitAllUnfolds(cfg, dir, nodes, at);
    if |nodes| == 0 {
      DirIsQuiet("", Meta(0, 0, 0, 0));
      ReadsNothing(cfg, NOTHING);
    } else {
      var first := Visit(cfg, dir, nodes[0], at).piece;
      VisitReads(cfg, dir, nodes[0], at);
      VisitAllReads(cfg, dir, nodes[1..], at + Size(cfg, first));
      ReadsAppend(cfg, first, NodeFiles(cfg, dir, nodes[0]), VisitAll(cfg, dir, nodes[1..], at + Size(cfg, first)).piece,
                  TreeFiles(cfg, dir, nodes[1..]));
    }
  }

  // ------------------------------------------------------------------------------- the measure

  /** The information and the attributes of every directory on the way can be read. */
  predicate DirsKnown(cfg: Config, dir: string, node: Node)
    decreases node, 0
  {
    var path := Paths.Child(dir, node.name);
    || cfg.isExcluded(path) || cfg.matches(path, node.Dir?) || !node.Dir?
    || (node.info.None? && node.stat.Known? && (node.listing.Some? || AllDirsKnown(cfg, path, node.children)))
  }

  predicate AllDirsKnown(cfg: Config, dir: string, nodes: seq<Node>)
    decreases nodes
  {
    |nodes| > 0 ==> DirsKnown(cfg, dir, nodes[0]) && AllDirsKnown(cfg, dir, nodes[1..])
  }

  function ListedSizes(files: seq<Reached>): nat
    requires forall i :: 0 <= i < |files| ==> files[i].1.File?
  {
    if |files| == 0 then 0 else files[0].1.listedSize + ListedSizes(files[1..])
  }

  lemma {:induction false} SizesConcat(a: seq<Reached>, b: seq<Reached>)
    requires forall i :: 0 <= i < |a| ==> a[i].1.File?
    requires forall i :: 0 <= i < |b| ==> b[i].1.File?
    ensures ListedSizes(a + b) == ListedSizes(a) + ListedSizes(b)
    decreases |a|
  {
    if |a| == 0 {
      assert a + b == b;
    } else {
      assert (a + b)[1..] == a[1..] + b;
      SizesConcat(a[1..], b);
    }
  }

  lemma {:induction false} MeasureReaches(cfg: Config, dir: string, node: Node)
    requires DirsKnown(cfg, dir, node)
    ensures Measure(cfg, dir, node) == ListedSizes(NodeFiles(cfg, dir, node))
    decreases node, 0
  {
    var path := Paths.Child(dir, node.name);
    hide Paths.Child, TreeFiles, MeasureAll, AllDirsKnown;
    if node.File? {
      assert [(path, node)][1..] == [];
    } else if node.Dir? && !cfg.isExcluded(path) && !cfg.matches(path, true) && node.listing.None? {
      MeasureAllReaches(cfg, path, node.children);
    }
  }

  /** MeasureSource counts the listed sizes of exactly the files that a run comes to, as
      long as no directory on the way fails to give its attributes. */
  lemma {:induction false} MeasureAllReaches(cfg: Config, dir: string, nodes: seq<Node>)
    requires AllDirsKnown(cfg, dir, nodes)
    ensures MeasureAll(cfg, dir, nodes) == ListedSizes(TreeFiles(cfg, dir, nodes))
    decreases nodes
  {
    hide Measure, NodeFiles, DirsKnown;
    if |nodes| > 0 {
      MeasureReaches(cfg, dir, nodes[0]);
      MeasureAllReaches(cfg, dir, nodes[1..]);
      SizesConcat(NodeFiles(cfg, dir, nodes[0]), TreeFiles(cfg, dir, nodes[1..]));
    }
  }
}
