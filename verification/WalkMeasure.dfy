/** The size shown before a backup, and the progress during it. */
module WalkMeasure {
  import opened Walk
  import opened WalkLaws
  import Paths
  import M = Manifest

  /** MeasureSource.Total: the listed sizes of the regular files that are not excluded. */
  function Measure(cfg: Config, dir: string, node: Node): nat
    decreases node, 0
  {
    var path := Paths.Child(dir, node.name);
    if cfg.isExcluded(path) || cfg.matches(path, node.Dir?) then 0
    else
      match node
      case Dir(_, _, _, listing, children) => if listing.Some? then 0 else MeasureAll(cfg, path, children)
      case File(_, info, listedSize, _, _, _) => if info.Some? then 0 else listedSize
      case Special(_, _) => 0
  }

  function MeasureAll(cfg: Config, dir: string, nodes: seq<Node>): nat
    decreases nodes
  {
    if |nodes| == 0 then 0 else Measure(cfg, dir, nodes[0]) + MeasureAll(cfg, dir, nodes[1..])
  }

  /** Nothing goes wrong with what is not excluded, and files that are read keep
      their listed size. */
  predicate FaultFree(cfg: Config, dir: string, node: Node)
    decreases node, 0
  {
    var path := Paths.Child(dir, node.name);
    || cfg.isExcluded(path) || cfg.matches(path, node.Dir?)
    || (node.info.None? &&
        match node
        case Special(_, _) => true
        case File(_, _, listedSize, _, opening, content) =>
          && Paths.ValidatePath(path).None?
          && (|| IsUnmodified(cfg, path, node)
              || (opening.Opened? && opening.failure.None? && opening.size == listedSize == |content|))
        case Dir(_, _, stat, listing, children) =>
          Paths.ValidatePath(path).None? && stat.Known? && listing.None? && AllFaultFree(cfg, path, children))
  }

  predicate AllFaultFree(cfg: Config, dir: string, nodes: seq<Node>)
    decreases nodes
  {
    |nodes| > 0 ==> FaultFree(cfg, dir, nodes[0]) && AllFaultFree(cfg, dir, nodes[1..])
  }

  /** The run counts n source bytes, and its manifest describes n bytes of files. */
  ghost predicate Accounts(o: Outcome, n: nat) {
    && o.Done? && o.piece.progress == n && M.FooterOf(o.piece.entries).totalBytes == n
    && o.piece.stats.skipped == o.piece.stats.stale == o.piece.stats.vanished == 0
  }

  lemma AccountsAppend(p: Piece, q: Piece, m: nat, n: nat)
    requires Accounts(Done(p), m) && Accounts(Done(q), n)
    ensures Accounts(Done(Append(p, q)), m + n)
  {
    FooterConcat(p.entries, q.entries);
    hide M.FooterOf;
  }

  lemma AccountsSimple()
    ensures Accounts(Done(NOTHING), 0) && Accounts(Done(Excluded()), 0)
  {
  }

  lemma AccountsDir(path: string, meta: Meta)
    ensures Accounts(Done(NOTHING.(entries := [DirEntry(path, meta)])), 0)
  {
    FooterOfOne(DirEntry(path, meta));
  }

  lemma AccountsFile(cfg: Config, dir: string, f: Node, at: nat)
    requires cfg.Valid() && f.File? && FaultFree(cfg, dir, f)
    requires !cfg.isExcluded(Paths.Child(dir, f.name)) && !cfg.matches(Paths.Child(dir, f.name), false)
    ensures Accounts(AddFile(cfg, Paths.Child(dir, f.name), f, at), f.listedSize)
  {
    var path := Paths.Child(dir, f.name);
    var base := cfg.BaseFile(path);
    assert base.Some? ==> ValidBaseFile(path, base.value);
    var p := AddFile(cfg, path, f, at).piece;
    assert |p.entries| == 1 && p.entries == [p.entries[0]];
    FooterOfOne(p.entries[0]);
  }

  lemma AccountsDone(o: Outcome, n: nat)
    requires Accounts(o, n)
    ensures o.Done?
  {
  }

  /** What a visit without faults adds, and what it measures. */
  lemma FaultFreeUnfolds(cfg: Config, dir: string, node: Node, at: nat)
    requires FaultFree(cfg, dir, node)
    ensures var path := Paths.Child(dir, node.name);
            if cfg.isExcluded(path) then Visit(cfg, dir, node, at) == Done(NOTHING) && Measure(cfg, dir, node) == 0
            else if cfg.matches(path, node.Dir?) then
              Visit(cfg, dir, node, at) == Done(Excluded()) && Measure(cfg, dir, node) == 0
            else if node.Special? then Visit(cfg, dir, node, at) == Done(NOTHING) && Measure(cfg, dir, node) == 0
            else if node.File? then
              Visit(cfg, dir, node, at) == AddFile(cfg, path, node, at) && Measure(cfg, dir, node) == node.listedSize
            else
              && node.stat.Known? && AllFaultFree(cfg, path, node.children)
              && Measure(cfg, dir, node) == MeasureAll(cfg, path, node.children)
              && (VisitAll(cfg, path, node.children, at).Done? ==>
                    Visit(cfg, dir, node, at) ==
                    Done(Append(NOTHING.(entries := [DirEntry(path, node.stat.meta)]),
                                VisitAll(cfg, path, node.children, at).piece)))
  {
    hide AddFile, VisitAll, Paths.ValidatePath, Paths.Child, MeasureAll, DirEntry, AllFaultFree, Append;
  }

  lemma AllUnfolds(cfg: Config, dir: string, nodes: seq<Node>, at: nat)
    requires AllFaultFree(cfg, dir, nodes) && |nodes| > 0
    ensures FaultFree(cfg, dir, nodes[0]) && AllFaultFree(cfg, dir, nodes[1..])
    ensures MeasureAll(cfg, dir, nodes) == Measure(cfg, dir, nodes[0]) + MeasureAll(cfg, dir, nodes[1..])
    ensures var first := Visit(cfg, dir, nodes[0], at);
            first.Done? ==>
              var later := VisitAll(cfg, dir, nodes[1..], at + Size(cfg, first.piece));
              later.Done? ==> VisitAll(cfg, dir, nodes, at) == Done(Append(first.piece, later.piece))
  {
    hide Visit, FaultFree, Measure, Size, Append;
  }

  lemma MeasureNothing(cfg: Config, dir: string)
    ensures MeasureAll(cfg, dir, []) == 0
  {
  }

  lemma {:induction false} VisitAccounts(cfg: Config, dir: string, node: Node, at: nat)
    requires cfg.Valid() && FaultFree(cfg, dir, node)
    ensures Accounts(Visit(cfg, dir, node, at), Measure(cfg, dir, node))
    decreases node, 0
  {
    hide *;
    var path := Paths.Child(dir, node.name);
    FaultFreeUnfolds(cfg, dir, node, at);
    AccountsSimple();
    if cfg.isExcluded(path) || cfg.matches(path, node.Dir?) || node.Special? {
    } else if node.File? {
      AccountsFile(cfg, dir, node, at);
    } else {
      VisitAllAccounts(cfg, path, node.children, at);
      AccountsDir(path, node.stat.meta);
      AccountsDone(VisitAll(cfg, path, node.children, at), MeasureAll(cfg, path, node.children));
      AccountsAppend(NOTHING.(entries := [DirEntry(path, node.stat.meta)]),
                     VisitAll(cfg, path, node.children, at).piece, 0, MeasureAll(cfg, path, node.children));
    }
  }

  /** Without faults a backup completes, and the bytes its progress counter shows
      at the end, the bytes its manifest describes and the bytes measured before
      it are the same number, for full backups and differentials. */
  lemma {:induction false} VisitAllAccounts(cfg: Config, dir: string, nodes: seq<Node>, at: nat)
    requires cfg.Valid() && AllFaultFree(cfg, dir, nodes)
    ensures Accounts(VisitAll(cfg, dir, nodes, at), MeasureAll(cfg, dir, nodes))
    decreases nodes
  {
    hide *;
    if |nodes| == 0 {
      VisitAllUnfolds(cfg, dir, nodes, at);
      MeasureNothing(cfg, dir);
      AccountsSimple();
    } else {
      AllUnfolds(cfg, dir, nodes, at);
      VisitAccounts(cfg, dir, nodes[0], at);
      AccountsDone(Visit(cfg, dir, nodes[0], at), Measure(cfg, dir, nodes[0]));
      var first := Visit(cfg, dir, nodes[0], at).piece;
      VisitAllAccounts(cfg, dir, nodes[1..], at + Size(cfg, first));
      AccountsDone(VisitAll(cfg, dir, nodes[1..], at + Size(cfg, first)), MeasureAll(cfg, dir, nodes[1..]));
      AccountsAppend(first, VisitAll(cfg, dir, nodes[1..], at + Size(cfg, first)).piece,
                     Measure(cfg, dir, nodes[0]), MeasureAll(cfg, dir, nodes[1..]));
    }
  }
}
