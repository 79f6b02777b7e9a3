/** When the manifest of a backup run passes Validate: parents first, no
    collisions, legal entries, whatever faults the run met. */
module WalkValid {
  import opened Wrappers
  import opened Walk
  import opened WalkLaws
  import Paths
  import M = Manifest

  // --------------------------------------------------------- validity, entry by entry

  predicate HeadFits(fold: char -> char, seen: set<string>, dirs: set<string>, e: M.Entry, isDiff: bool) {
    && Paths.ValidatePath(e.path).None?
    && M.Fold(fold, e.path) !in seen
    && (Paths.Dir(e.path) == "." || Paths.Dir(e.path) in dirs)
    && M.ValidateEntry(e, isDiff)
  }

  function DirOf(e: M.Entry): set<string> { if e.kind == M.DirKind then {e.path} else {} }

  function FoldedPaths(fold: char -> char, entries: seq<M.Entry>): set<string> {
    if |entries| == 0 then {} else {M.Fold(fold, entries[0].path)} + FoldedPaths(fold, entries[1..])
  }

  function DirPaths(entries: seq<M.Entry>): set<string> {
    if |entries| == 0 then {} else DirOf(entries[0]) + DirPaths(entries[1..])
  }

  /** The entries are acceptable one after the other, behind entries with the
      folded paths `seen` and the directories `dirs`. */
  ghost predicate Fits(fold: char -> char, seen: set<string>, dirs: set<string>, entries: seq<M.Entry>, isDiff: bool)
    decreases |entries|
  {
    |entries| > 0 ==>
      && HeadFits(fold, seen, dirs, entries[0], isDiff)
      && Fits(fold, seen + {M.Fold(fold, entries[0].path)}, dirs + DirOf(entries[0]), entries[1..], isDiff)
  }

  lemma {:induction false} FitsConcat(fold: char -> char, seen: set<string>, dirs: set<string>,
                                      a: seq<M.Entry>, b: seq<M.Entry>, isDiff: bool)
    ensures Fits(fold, seen, dirs, a + b, isDiff) <==>
            && Fits(fold, seen, dirs, a, isDiff)
            && Fits(fold, seen + FoldedPaths(fold, a), dirs + DirPaths(a), b, isDiff)
    decreases |a|
  {
    hide HeadFits, M.Fold, DirOf;
    if |a| == 0 {
      assert a + b == b && seen + {} == seen && dirs + {} == dirs;
    } else {
      assert (a + b)[1..] == a[1..] + b;
      var seen', dirs' := seen + {M.Fold(fold, a[0].path)}, dirs + DirOf(a[0]);
      FitsConcat(fold, seen', dirs', a[1..], b, isDiff);
      assert seen' + FoldedPaths(fold, a[1..]) == seen + FoldedPaths(fold, a);
      assert dirs' + DirPaths(a[1..]) == dirs + DirPaths(a);
    }
  }

  lemma {:induction false} FitsByIndex(fold: char -> char, entries: seq<M.Entry>, isDiff: bool, n: nat)
    requires n <= |entries|
    ensures Fits(fold, M.FoldedBefore(fold, entries, n), M.DirsBefore(entries, n), entries[n..], isDiff) <==>
            forall i :: n <= i < |entries| ==> M.EntryFits(fold, entries, isDiff, i)
    decreases |entries| - n
  {
    hide *;
    FitsUnfolds(fold, M.FoldedBefore(fold, entries, n), M.DirsBefore(entries, n), entries[n..], isDiff);
    if n < |entries| {
      M.BeforeGrows(fold, entries, n);
      FitsByIndex(fold, entries, isDiff, n + 1);
      HeadFitsIsEntryFits(fold, entries, isDiff, n);
      assert entries[n..][1..] == entries[n + 1..];
    }
  }

  lemma FitsUnfolds(fold: char -> char, seen: set<string>, dirs: set<string>, entries: seq<M.Entry>, isDiff: bool)
    ensures Fits(fold, seen, dirs, entries, isDiff) <==>
            (|entries| > 0 ==>
               && HeadFits(fold, seen, dirs, entries[0], isDiff)
               && Fits(fold, seen + {M.Fold(fold, entries[0].path)},
                       dirs + (if entries[0].kind == M.DirKind then {entries[0].path} else {}), entries[1..], isDiff))
  {
  }

  lemma HeadFitsIsEntryFits(fold: char -> char, entries: seq<M.Entry>, isDiff: bool, n: nat)
    requires n < |entries|
    ensures HeadFits(fold, M.FoldedBefore(fold, entries, n), M.DirsBefore(entries, n), entries[n..][0], isDiff)
            <==> M.EntryFits(fold, entries, isDiff, n)
  {
  }

  lemma FitsIsValid(fold: char -> char, entries: seq<M.Entry>, isDiff: bool)
    ensures Fits(fold, {}, {}, entries, isDiff) <==> M.ValidEntries(fold, entries, isDiff)
  {
    M.BeforeNothing(fold, entries);
    FitsByIndex(fold, entries, isDiff, 0);
    assert entries[0..] == entries;
    hide Fits, M.FoldedBefore, M.DirsBefore, M.EntryFits;
  }

  // ------------------------------------------------------------------ paths of subtrees

  /** q is the path p or lies below it. */
  predicate Under(q: string, p: string) { q == p || p + "/" <= q }

  lemma FoldChild(fold: char -> char, dir: string, name: string)
    requires M.Folding(fold)
    ensures M.Fold(fold, Paths.Child(dir, name)) == Paths.Child(M.Fold(fold, dir), M.Fold(fold, name))
    ensures '/' !in name ==> '/' !in M.Fold(fold, name)
  {
  }

  lemma UnderChild(q: string, dir: string, name: string)
    requires name != ""
    ensures dir != "" && Under(q, Paths.Child(dir, name)) ==> Under(q, dir)
    ensures dir != "" ==> Under(Paths.Child(dir, name), dir) && !Under(dir, Paths.Child(dir, name))
  {
    var p := Paths.Child(dir, name);
    if dir != "" {
      assert p[..|dir| + 1] == dir + "/";
      if p + "/" <= q {
        assert q[..|p|] == p;
        assert q[..|dir| + 1] == p[..|dir| + 1];
      }
    }
  }

  /** The segment at the head of a relative path. */
  function Head(s: string): string {
    if s == "" || s[0] == '/' then "" else [s[0]] + Head(s[1..])
  }

  lemma {:induction false} HeadIs(name: string, rest: string)
    requires '/' !in name && (rest == "" || rest[0] == '/')
    ensures Head(name + rest) == name
  {
    if name == "" {
      assert name + rest == rest;
    } else {
      assert (name + rest)[1..] == name[1..] + rest;
      HeadIs(name[1..], rest);
    }
  }

  /** Behind the directory, a path at or below one of its entries names that entry. */
  lemma UnderNames(q: string, dir: string, name: string)
    requires '/' !in name && Under(q, Paths.Child(dir, name))
    ensures var k := if dir == "" then 0 else |dir| + 1; k <= |q| && Head(q[k..]) == name
  {
    var p := Paths.Child(dir, name);
    var k := |p| - |name|;
    assert q == p + q[|p|..];
    assert q[k..] == name + q[|p|..];
    HeadIs(name, q[|p|..]);
  }

  // ---------------------------------------------------------------- well-formed sources

  predicate FaultOk(f: Option<Fault>) { f.Some? ==> f.value.reason != "" }

  /** Names are single path segments that differ from their siblings also when
      case is ignored, and every error has a text. */
  ghost predicate NodeOk(fold: char -> char, node: Node)
    decreases node, 0
  {
    && Paths.IsName(node.name) && FaultOk(node.info)
    && (!node.Special? && node.stat.Unknown? ==> node.stat.fault.reason != "")
    && (node.File? ==>
          match node.opening
          case Refused(fault) => fault.reason != ""
          case Opened(_, _, failure) => failure.Some? ==> failure.value.1 != "")
    && (node.Dir? ==> FaultOk(node.listing) && TreeOk(fold, node.children))
  }

  ghost predicate TreeOk(fold: char -> char, nodes: seq<Node>)
    decreases nodes
  {
    |nodes| > 0 ==>
      && NodeOk(fold, nodes[0])
      && (forall j :: 1 <= j < |nodes| ==> M.Fold(fold, nodes[j].name) != M.Fold(fold, nodes[0].name))
      && TreeOk(fold, nodes[1..])
  }

  /** Every entry whose information cannot be read, and that the run therefore
      records as skipped, has a path that ValidatePath accepts. */
  predicate Named(cfg: Config, dir: string, node: Node)
    decreases node, 0
  {
    var path := Paths.Child(dir, node.name);
    if cfg.isExcluded(path) || cfg.matches(path, node.Dir?) then true
    else if node.info.Some? then node.info.value.notExist || Paths.ValidatePath(path).None?
    else if !node.Dir? || node.stat.Unknown? || node.listing.Some? then true
    else AllNamed(cfg, path, node.children)
  }

  predicate AllNamed(cfg: Config, dir: string, nodes: seq<Node>)
    decreases nodes
  {
    |nodes| > 0 ==> Named(cfg, dir, nodes[0]) && AllNamed(cfg, dir, nodes[1..])
  }

  /** A file whose faults the run can go on with. */
  predicate FileCompletes(cfg: Config, path: string, f: Node)
    requires f.File?
  {
    || IsUnmodified(cfg, path, f)
    || cfg.skipUnreadable
    || (match f.opening
        case Refused(fault) => fault.notExist
        case Opened(_, size, _) => Available(f) == size)
  }

  predicate CanSkip(cfg: Config, fault: Fault) { fault.notExist || cfg.skipUnreadable }

  /** Nothing about this entry, or below it, keeps a backup from being written. */
  predicate Completes(cfg: Config, dir: string, node: Node)
    decreases node, 0
  {
    var path := Paths.Child(dir, node.name);
    || cfg.isExcluded(path) || cfg.matches(path, node.Dir?)
    || (if node.info.Some? then
          node.info.value.notExist || (cfg.skipUnreadable && Paths.ValidatePath(path).None?)
        else
          match node
          case Special(_, _) => true
          case File(_, _, _, _, _, _) => Paths.ValidatePath(path).None? && FileCompletes(cfg, path, node)
          case Dir(_, _, stat, listing, children) =>
            Paths.ValidatePath(path).None? &&
            if stat.Unknown? then CanSkip(cfg, stat.fault)
            else if listing.Some? then CanSkip(cfg, listing.value)
            else AllComplete(cfg, path, children))
  }

  predicate AllComplete(cfg: Config, dir: string, nodes: seq<Node>)
    decreases nodes
  {
    |nodes| > 0 ==> Completes(cfg, dir, nodes[0]) && AllComplete(cfg, dir, nodes[1..])
  }

  // -------------------------------------------------------------------------- the walk

  lemma SkippedValid(path: string, reason: string, isVoid: bool, isDiff: bool)
    requires reason != ""
    ensures M.ValidateEntry(M.SkippedEntry(path, reason, isVoid), isDiff)
  {
  }

  lemma FromBaseValid(p: string, base: M.Entry, stale: bool, isVoid: bool)
    requires ValidBaseFile(p, base) && (isVoid ==> stale)
    ensures M.ValidateEntry(FromBase(base, stale, isVoid), true)
  {
    hide M.IsValidHash, Paths.ValidatePath;
  }

  lemma DirEntryValid(path: string, meta: Meta, isDiff: bool)
    ensures M.ValidateEntry(DirEntry(path, meta), isDiff)
  {
  }

  lemma StoredValid(cfg: Config, path: string, f: Node, at: nat)
    requires cfg.Valid() && f.File? && WriteFile(cfg, path, f, at).Stored?
    ensures M.ValidateEntry(WriteFile(cfg, path, f, at).entry, cfg.base.Some?)
  {
    hide M.IsValidHash;
  }

  /** All entries of a piece lie at or below p. */
  ghost predicate AllUnder(fold: char -> char, entries: seq<M.Entry>, p: string) {
    forall i :: 0 <= i < |entries| ==> Under(M.Fold(fold, entries[i].path), p)
  }

  ghost predicate NoneUnder(seen: set<string>, p: string) { forall q :: q in seen ==> !Under(q, p) }

  /** The directory is the source itself or was recorded. */
  ghost predicate DirKnown(dirs: set<string>, dir: string) {
    dir == "" || (dir in dirs && Paths.ValidatePath(dir).None?)
  }

  /** A single entry for dir/name fits exactly when its path is acceptable. */
  lemma OneFits(fold: char -> char, seen: set<string>, dirs: set<string>, dir: string, name: string, e: M.Entry, isDiff: bool)
    requires Paths.IsName(name) && DirKnown(dirs, dir) && e.path == Paths.Child(dir, name)
    requires NoneUnder(seen, M.Fold(fold, e.path)) && M.ValidateEntry(e, isDiff)
    ensures Fits(fold, seen, dirs, [e], isDiff) <==> Paths.ValidatePath(e.path).None?
    ensures AllUnder(fold, [e], M.Fold(fold, e.path))
  {
    if dir != "" {
      Paths.AcceptedPaths(dir);
    }
    Paths.DirOfChild(dir, name);
    hide Paths.ValidatePath, Paths.Dir, Paths.Child, Paths.IsName, M.ValidateEntry, Paths.PlainPath, Paths.Blank, M.Fold;
    assert [e][1..] == [];
  }

  /** One legal entry with the given path. */
  ghost predicate IsOne(es: seq<M.Entry>, path: string, isDiff: bool) {
    |es| == 1 && es[0].path == path && M.ValidateEntry(es[0], isDiff)
  }

  lemma SkipFileIsOne(cfg: Config, path: string, reason: string, isVoid: bool)
    requires cfg.Valid() && reason != ""
    ensures IsOne(SkipFile(cfg, path, reason, isVoid).entries, path, cfg.base.Some?)
  {
    var base := cfg.BaseFile(path);
    if base.Some? {
      assert ValidBaseFile(path, base.value);
      FromBaseValid(path, base.value, true, isVoid);
    } else {
      SkippedValid(path, reason, isVoid, cfg.base.Some?);
    }
    hide M.ValidateEntry, Paths.ValidatePath;
  }

  lemma AddFileIsOne(cfg: Config, fold: char -> char, path: string, f: Node, at: nat)
    requires cfg.Valid() && f.File? && NodeOk(fold, f) && AddFile(cfg, path, f, at).Done?
    ensures var es := AddFile(cfg, path, f, at).piece.entries; es == [] || IsOne(es, path, cfg.base.Some?)
  {
    var base, w := cfg.BaseFile(path), WriteFile(cfg, path, f, at);
    if base.Some? && f.stat.Known? && Unchanged(base.value, f.listedSize, f.stat.meta) {
      assert ValidBaseFile(path, base.value);
      FromBaseValid(path, base.value, false, false);
    } else if w.Stored? {
      StoredValid(cfg, path, f, at);
    } else {
      var reason := if w.Broken? then w.reason else w.fault.reason;
      if reason != "" {
        SkipFileIsOne(cfg, path, reason, w.Broken?);
      }
      hide SkipFile;
      if w.Broken? {
        AppendItem(w.item, w.copied, SkipFile(cfg, path, reason, true)) by {
          SkipFileShape(cfg, path, reason, true);
        }
      }
    }
    hide M.ValidateEntry, Paths.ValidatePath;
  }

  /** The directories whose content is visited. */
  predicate Enters(cfg: Config, dir: string, node: Node) {
    var path := Paths.Child(dir, node.name);
    && !cfg.isExcluded(path) && !cfg.matches(path, node.Dir?) && node.Dir?
    && node.info.None? && node.stat.Known? && node.listing.None?
  }

  /** What a visit adds: the directory and what is below it, one legal entry, or
      nothing; in the last two cases Named tells whether the path is acceptable. */
  lemma VisitShape(cfg: Config, fold: char -> char, dir: string, node: Node, at: nat)
    requires cfg.Valid() && NodeOk(fold, node) && Visit(cfg, dir, node, at).Done?
    ensures var path, es := Paths.Child(dir, node.name), Visit(cfg, dir, node, at).piece.entries;
            if Enters(cfg, dir, node) then
              && Paths.ValidatePath(path).None? && VisitAll(cfg, path, node.children, at).Done?
              && es == [DirEntry(path, node.stat.meta)] + VisitAll(cfg, path, node.children, at).piece.entries
              && (Named(cfg, dir, node) <==> AllNamed(cfg, path, node.children))
            else
              || (es == [] && Named(cfg, dir, node))
              || (IsOne(es, path, cfg.base.Some?) && (Named(cfg, dir, node) <==> Paths.ValidatePath(path).None?))
  {
    var path := Paths.Child(dir, node.name);
    hide Paths.ValidatePath, Paths.Child, Config.Valid, AddFile, SkipFile, M.ValidateEntry, VisitAll, AllNamed;
    if node.info.Some? && !node.info.value.notExist {
      SkipFileIsOne(cfg, path, node.info.value.reason, false);
      SkippedValid(path, node.info.value.reason, false, cfg.base.Some?);
    } else if node.File? && node.info.None? && AddFile(cfg, path, node, at).Done? {
      AddFileIsOne(cfg, fold, path, node, at);
    } else if node.Dir? {
      if node.stat.Unknown? {
        SkippedValid(path, node.stat.fault.reason, false, cfg.base.Some?);
      } else {
        DirEntryValid(path, node.stat.meta, cfg.base.Some?);
        if node.listing.Some? {
          SkippedValid(path, node.listing.value.reason, false, cfg.base.Some?);
        }
      }
    }
  }

  /** The induction over the source: what a visit adds fits behind what was
      recorded exactly when the paths it had to record unseen are acceptable. */
  lemma {:induction false} VisitFits(cfg: Config, fold: char -> char, dir: string, node: Node, at: nat,
                                     seen: set<string>, dirs: set<string>)
    requires cfg.Valid() && M.Folding(fold) && NodeOk(fold, node) && Visit(cfg, dir, node, at).Done?
    requires DirKnown(dirs, dir) && NoneUnder(seen, M.Fold(fold, Paths.Child(dir, node.name)))
    ensures Fits(fold, seen, dirs, Visit(cfg, dir, node, at).piece.entries, cfg.base.Some?) <==> Named(cfg, dir, node)
    ensures AllUnder(fold, Visit(cfg, dir, node, at).piece.entries, M.Fold(fold, Paths.Child(dir, node.name)))
    decreases node, 0
  {
    var path, es := Paths.Child(dir, node.name), Visit(cfg, dir, node, at).piece.entries;
    assert Paths.IsName(node.name) && (node.Dir? ==> TreeOk(fold, node.children));
    hide *;
    VisitShape(cfg, fold, dir, node, at);
    var folded := M.Fold(fold, path);
    if Enters(cfg, dir, node) {
      EntersDir(cfg, dir, node);
      ChildrenNamed(fold, node.children);
      var here := DirEntry(path, node.stat.meta);
      var below := VisitAll(cfg, path, node.children, at).piece.entries;
      DirEntryValid(path, node.stat.meta, cfg.base.Some?);
      DirEntryShape(path, node.stat.meta);
      OneFits(fold, seen, dirs, dir, node.name, here, cfg.base.Some?);
      InnerContext(fold, seen, dirs, dir, node.name, node.stat.meta);
      VisitAllFits(cfg, fold, path, node.children, at, seen + {folded}, dirs + {path});
      FitsConcat(fold, seen, dirs, [here], below, cfg.base.Some?);
      PathsOfOne(fold, here);
      AllUnderConcat(fold, [here], below, folded);
    } else if IsOne(es, path, cfg.base.Some?) {
      IsOneUnfolds(es, path, cfg.base.Some?);
      OneFits(fold, seen, dirs, dir, node.name, es[0], cfg.base.Some?);
      assert es == [es[0]];
    } else {
      FitsUnfolds(fold, seen, dirs, [], cfg.base.Some?);
      NothingUnder(fold, folded);
    }
  }

  lemma {:induction false} VisitAllFits(cfg: Config, fold: char -> char, dir: string, nodes: seq<Node>, at: nat,
                                        seen: set<string>, dirs: set<string>)
    requires cfg.Valid() && M.Folding(fold) && TreeOk(fold, nodes) && VisitAll(cfg, dir, nodes, at).Done?
    requires DirKnown(dirs, dir)
    requires forall i :: 0 <= i < |nodes| ==> NoneUnder(seen, M.Fold(fold, Paths.Child(dir, nodes[i].name)))
    ensures Fits(fold, seen, dirs, VisitAll(cfg, dir, nodes, at).piece.entries, cfg.base.Some?) <==> AllNamed(cfg, dir, nodes)
    ensures dir != "" ==> AllUnder(fold, VisitAll(cfg, dir, nodes, at).piece.entries, M.Fold(fold, dir))
    decreases nodes
  {
    hide *;
    VisitAllUnfolds(cfg, dir, nodes, at);
    AllNamedUnfolds(cfg, dir, nodes);
    if |nodes| == 0 {
      NoEntries();
      FitsUnfolds(fold, seen, dirs, [], cfg.base.Some?);
      NothingUnder(fold, M.Fold(fold, dir));
    } else {
      TreeOkUnfolds(fold, nodes);
      var first := Visit(cfg, dir, nodes[0], at).piece;
      var later := VisitAll(cfg, dir, nodes[1..], at + Size(cfg, first)).piece;
      VisitFits(cfg, fold, dir, nodes[0], at, seen, dirs);
      var seen', dirs' := seen + FoldedPaths(fold, first.entries), dirs + DirPaths(first.entries);
      DirStaysKnown(dirs, DirPaths(first.entries), dir);
      forall i | 0 <= i < |nodes[1..]|
        ensures NoneUnder(seen', M.Fold(fold, Paths.Child(dir, nodes[1..][i].name)))
      {
        SiblingContext(fold, seen, first.entries, dir, nodes[0].name, nodes[i + 1].name);
      }
      VisitAllFits(cfg, fold, dir, nodes[1..], at + Size(cfg, first), seen', dirs');
      FitsConcat(fold, seen, dirs, first.entries, later.entries, cfg.base.Some?);
      AppendEntries(first, later);
      if dir != "" {
        LiftUnder(fold, first.entries, dir, nodes[0].name);
        AllUnderConcat(fold, first.entries, later.entries, M.Fold(fold, dir));
      }
    }
  }

  // ---------------------------------------------------------------------- the theorems

  function ManifestOf(header: M.Header, p: Piece): M.Manifest {
    M.Manifest(header, p.entries, M.FooterOf(p.entries))
  }

  ghost predicate HeaderFor(cfg: Config, header: M.Header) {
    M.ValidHeader(header) && (header.setType == M.SET_TYPE_DIFF <==> cfg.base.Some?)
  }

  /** For every source, every schedule of read faults and every base: a run that
      is not aborted writes a manifest that Validate accepts, exactly when every
      entry it had to record without its information has an acceptable path. */
  lemma ManifestValid(cfg: Config, fold: char -> char, header: M.Header, nodes: seq<Node>)
    requires cfg.Valid() && M.Folding(fold) && TreeOk(fold, nodes) && HeaderFor(cfg, header)
    requires Backup(cfg, Some(nodes)).Done?
    ensures M.ValidManifest(fold, ManifestOf(header, Backup(cfg, Some(nodes)).piece)) <==> AllNamed(cfg, "", nodes)
  {
    hide VisitAll, AllNamed, M.ValidEntries, TreeOk, Fits, M.ValidHeader, Config.Valid;
    VisitAllFits(cfg, fold, "", nodes, 0, {}, {});
    FitsIsValid(fold, VisitAll(cfg, "", nodes, 0).piece.entries, cfg.base.Some?);
  }

  lemma FileRuns(cfg: Config, path: string, f: Node, at: nat)
    requires f.File?
    ensures AddFile(cfg, path, f, at).Done? <==> FileCompletes(cfg, path, f)
  {
    hide SkipFile, FromBase, Append, Config.BaseFile, Unchanged;
  }

  lemma {:induction false} VisitCompletes(cfg: Config, dir: string, node: Node, at: nat)
    ensures Completes(cfg, dir, node) <==> Visit(cfg, dir, node, at).Done? && Named(cfg, dir, node)
    decreases node, 0
  {
    var path := Paths.Child(dir, node.name);
    hide Paths.ValidatePath, Paths.Child, AddFile, SkipFile, FileCompletes, VisitAll, AllNamed, AllComplete, Append, DirEntry;
    if node.File? {
      FileRuns(cfg, path, node, at);
    } else if node.Dir? {
      VisitAllCompletes(cfg, path, node.children, at);
    }
  }

  lemma {:induction false} VisitAllCompletes(cfg: Config, dir: string, nodes: seq<Node>, at: nat)
    ensures AllComplete(cfg, dir, nodes) <==> VisitAll(cfg, dir, nodes, at).Done? && AllNamed(cfg, dir, nodes)
    decreases nodes
  {
    hide Visit, VisitAll, Named, Completes, Size, Append;
    VisitAllUnfolds(cfg, dir, nodes, at);
    if |nodes| > 0 {
      VisitCompletes(cfg, dir, nodes[0], at);
      if Visit(cfg, dir, nodes[0], at).Done? {
        VisitAllCompletes(cfg, dir, nodes[1..], at + Size(cfg, Visit(cfg, dir, nodes[0], at).piece));
      }
    }
  }

  /** When a backup can be written, exactly: the run is not aborted and Validate
      accepts its manifest if and only if everything that is not excluded can be
      read or skipped, and has an acceptable path unless it is special or was
      deleted before its information was read. */
  lemma BackupSucceeds(cfg: Config, fold: char -> char, header: M.Header, nodes: seq<Node>)
    requires cfg.Valid() && M.Folding(fold) && TreeOk(fold, nodes) && HeaderFor(cfg, header)
    ensures AllComplete(cfg, "", nodes) <==>
            && Backup(cfg, Some(nodes)).Done?
            && M.ValidManifest(fold, ManifestOf(header, Backup(cfg, Some(nodes)).piece))
  {
    hide *;
    VisitAllCompletes(cfg, "", nodes, 0);
    BackupUnfolds(cfg, nodes);
    if Backup(cfg, Some(nodes)).Done? {
      ManifestValid(cfg, fold, header, nodes);
    }
  }

  lemma BackupUnfolds(cfg: Config, nodes: seq<Node>)
    ensures Backup(cfg, Some(nodes)) == VisitAll(cfg, "", nodes, 0)
  {
    hide VisitAll;
  }

  /** The code records an entry whose information cannot be read before it checks
      the path. If the information of an entry with a name that ValidatePath refuses
      cannot be read, the code itself refuses the manifest although it was told to
      skip unreadable files. */
  lemma RefusedNameBreaksSkipping(cfg: Config, fold: char -> char, header: M.Header, name: string, reason: string)
    requires cfg.Valid() && M.Folding(fold) && HeaderFor(cfg, header)
    requires cfg.skipUnreadable && !cfg.isExcluded(name) && !cfg.matches(name, false)
    requires Paths.IsName(name) && Paths.ValidatePath(name).Some? && reason != ""
    ensures var nodes := [Special(name, Some(Fault(false, reason)))];
            && TreeOk(fold, nodes) && Backup(cfg, Some(nodes)).Done?
            && !M.ValidManifest(fold, ManifestOf(header, Backup(cfg, Some(nodes)).piece))
  {
    var node := Special(name, Some(Fault(false, reason)));
    var nodes := [node];
    assert nodes[1..] == [];
    assert Paths.Child("", name) == name;
    assert TreeOk(fold, nodes);
    hide Paths.ValidatePath, Paths.IsName;
    assert !AllNamed(cfg, "", nodes);
    assert Visit(cfg, "", node, 0).Done?;
    assert VisitAll(cfg, "", [], Size(cfg, Visit(cfg, "", node, 0).piece)) == Done(NOTHING);
    assert Backup(cfg, Some(nodes)).Done?;
    ManifestValid(cfg, fold, header, nodes);
  }

  /** A single no-break space, which Windows allows, is such a name. */
  lemma BlankIsRefused()
    ensures Paths.IsName("\U{A0}") && Paths.ValidatePath("\U{A0}").Some?
  {
  }

  // ------------------------------------------------------------ steps of the induction

  lemma EntersDir(cfg: Config, dir: string, node: Node)
    requires Enters(cfg, dir, node)
    ensures node.Dir? && node.stat.Known?
  {
  }

  lemma {:induction false} ChildrenNamed(fold: char -> char, nodes: seq<Node>)
    requires TreeOk(fold, nodes)
    ensures forall i :: 0 <= i < |nodes| ==> nodes[i].name != ""
    decreases |nodes|
  {
    if |nodes| > 0 {
      ChildrenNamed(fold, nodes[1..]);
      assert forall i :: 1 <= i < |nodes| ==> nodes[i] == nodes[1..][i - 1];
    }
  }

  lemma DirEntryShape(path: string, meta: Meta)
    ensures DirEntry(path, meta).path == path && DirEntry(path, meta).kind == M.DirKind
  {
  }

  lemma PathsOfOne(fold: char -> char, e: M.Entry)
    ensures FoldedPaths(fold, [e]) == {M.Fold(fold, e.path)}
    ensures DirPaths([e]) == if e.kind == M.DirKind then {e.path} else {}
  {
    assert [e][1..] == [];
  }

  lemma AllUnderConcat(fold: char -> char, a: seq<M.Entry>, b: seq<M.Entry>, p: string)
    requires AllUnder(fold, a, p) && AllUnder(fold, b, p)
    ensures AllUnder(fold, a + b, p)
  {
    hide M.Fold, Under;
  }

  lemma NothingUnder(fold: char -> char, p: string)
    ensures AllUnder(fold, [], p)
  {
  }

  lemma NoEntries()
    ensures NOTHING.entries == []
  {
  }

  lemma IsOneUnfolds(es: seq<M.Entry>, path: string, isDiff: bool)
    requires IsOne(es, path, isDiff)
    ensures |es| == 1 && es[0].path == path && M.ValidateEntry(es[0], isDiff)
  {
  }

  lemma AppendEntries(p: Piece, q: Piece)
    ensures Append(p, q).entries == p.entries + q.entries
  {
  }

  lemma AllNamedUnfolds(cfg: Config, dir: string, nodes: seq<Node>)
    ensures AllNamed(cfg, dir, nodes) <==> (|nodes| > 0 ==> Named(cfg, dir, nodes[0]) && AllNamed(cfg, dir, nodes[1..]))
  {
  }

  lemma TreeOkUnfolds(fold: char -> char, nodes: seq<Node>)
    requires TreeOk(fold, nodes) && |nodes| > 0
    ensures NodeOk(fold, nodes[0]) && TreeOk(fold, nodes[1..])
    ensures '/' !in nodes[0].name && nodes[0].name != ""
    ensures forall i :: 0 <= i < |nodes[1..]| ==>
              M.Fold(fold, nodes[1..][i].name) != M.Fold(fold, nodes[0].name) && '/' !in nodes[1..][i].name
  {
  }

  lemma DirStaysKnown(dirs: set<string>, more: set<string>, dir: string)
    requires DirKnown(dirs, dir)
    ensures DirKnown(dirs + more, dir)
  {
  }

  /** Inside a recorded directory, nothing recorded before lies below its entries. */
  lemma InnerContext(fold: char -> char, seen: set<string>, dirs: set<string>, dir: string, name: string, meta: Meta)
    requires M.Folding(fold) && Paths.IsName(name) && Paths.ValidatePath(Paths.Child(dir, name)).None?
    requires NoneUnder(seen, M.Fold(fold, Paths.Child(dir, name)))
    ensures DirKnown(dirs + {Paths.Child(dir, name)}, Paths.Child(dir, name)) && Paths.Child(dir, name) != ""
    ensures forall n: string :: n != "" ==>
              NoneUnder(seen + {M.Fold(fold, Paths.Child(dir, name))}, M.Fold(fold, Paths.Child(Paths.Child(dir, name), n)))
  {
  }

  lemma SiblingContext(fold: char -> char, seen: set<string>, es: seq<M.Entry>, dir: string, m: string, n: string)
    requires M.Folding(fold) && '/' !in m && '/' !in n && M.Fold(fold, m) != M.Fold(fold, n)
    requires AllUnder(fold, es, M.Fold(fold, Paths.Child(dir, m))) && NoneUnder(seen, M.Fold(fold, Paths.Child(dir, n)))
    ensures NoneUnder(seen + FoldedPaths(fold, es), M.Fold(fold, Paths.Child(dir, n)))
  {
    FoldChild(fold, dir, m);
    FoldChild(fold, dir, n);
    var d, x, y := M.Fold(fold, dir), M.Fold(fold, m), M.Fold(fold, n);
    forall q | q in FoldedPaths(fold, es)
      ensures !Under(q, Paths.Child(d, y))
    {
      var i := FoldedPathOf(fold, es, q);
      UnderNames(q, d, x);
      if Under(q, Paths.Child(d, y)) {
        UnderNames(q, d, y);
      }
    }
    hide M.Fold, Under, Paths.Child;
  }

  lemma {:induction false} FoldedPathOf(fold: char -> char, es: seq<M.Entry>, q: string) returns (i: nat)
    requires q in FoldedPaths(fold, es)
    ensures i < |es| && q == M.Fold(fold, es[i].path)
    decreases |es|
  {
    if q == M.Fold(fold, es[0].path) {
      i := 0;
    } else {
      i := FoldedPathOf(fold, es[1..], q);
      i := i + 1;
    }
  }

  lemma LiftUnder(fold: char -> char, es: seq<M.Entry>, dir: string, name: string)
    requires M.Folding(fold) && dir != "" && name != "" && AllUnder(fold, es, M.Fold(fold, Paths.Child(dir, name)))
    ensures AllUnder(fold, es, M.Fold(fold, dir))
  {
    FoldChild(fold, dir, name);
    forall i | 0 <= i < |es|
      ensures Under(M.Fold(fold, es[i].path), M.Fold(fold, dir))
    {
      UnderChild(M.Fold(fold, es[i].path), M.Fold(fold, dir), M.Fold(fold, name));
    }
  }
}
