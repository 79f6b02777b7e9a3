/** What every backup run keeps: counts agree with the footer, and the TAR holds
    exactly the entries the manifest says it holds, where it says. */
module WalkLaws {
  import opened Wrappers
  import opened Walk
  import Paths
  import M = Manifest
  import Tar

  // ------------------------------------------------------------------- bookkeeping

  function AddFooters(f: M.Footer, g: M.Footer): M.Footer {
    M.Footer(f.end, f.entries + g.entries, f.files + g.files, f.dirs + g.dirs, f.skipped + g.skipped,
             f.stale + g.stale, f.totalBytes + g.totalBytes, f.dataBytes + g.dataBytes)
  }

  lemma AddCommutes(f: M.Footer, g: M.Footer, e: M.Entry)
    ensures AddFooters(f, M.AddToFooter(g, e)) == M.AddToFooter(AddFooters(f, g), e)
  {
  }

  lemma {:induction false} FooterConcat(a: seq<M.Entry>, b: seq<M.Entry>)
    ensures M.FooterOf(a + b) == AddFooters(M.FooterOf(a), M.FooterOf(b))
    decreases |b|
  {
    if |b| == 0 {
      assert a + b == a;
    } else {
      hide AddFooters, M.AddToFooter;
      var n := |b| - 1;
      assert (a + b)[..|a| + n] == a + b[..n];
      FooterConcat(a, b[..n]);
      AddCommutes(M.FooterOf(a), M.FooterOf(b[..n]), b[n]);
    }
  }

  lemma FooterOfOne(e: M.Entry)
    ensures M.FooterOf([e]) == M.AddToFooter(M.FooterOf([]), e)
  {
    assert [e][..0] == [];
  }

  /** The counters of a run and the totals of its manifest tell the same. */
  ghost predicate Booked(p: Piece) {
    var f := M.FooterOf(p.entries);
    && f.skipped == p.stats.skipped && f.stale == p.stats.stale
    && f.files == p.stats.stored + p.stats.unmodified + p.stats.stale
  }

  lemma BookedAppend(p: Piece, q: Piece)
    requires Booked(p) && Booked(q)
    ensures Booked(Append(p, q))
  {
    FooterConcat(p.entries, q.entries);
  }

  // ------------------------------------------------------------- entries and archive

  /** The entries that have a TAR entry: content, or a void entry to skip. */
  predicate HasItem(e: M.Entry) { e.HasContentInSet() || e.void_ }

  ghost predicate Describes(cfg: Config, e: M.Entry, item: Tar.Item, at: nat) {
    && item.name == e.path && Tar.Writable(item)
    && (e.HasContentInSet() ==>
          !e.void_ && e.offset == Some(at) && e.size == item.size && e.hash == cfg.digest(item.content))
  }

  /** The items are, in order, those of the entries that have one; each content
      entry records the offset, size and hash of its item. */
  ghost predicate Carried(cfg: Config, entries: seq<M.Entry>, items: seq<Tar.Item>, at: nat)
    decreases |entries|
  {
    if |entries| == 0 then |items| == 0
    else if HasItem(entries[0]) then
      && |items| > 0 && Describes(cfg, entries[0], items[0], at)
      && Carried(cfg, entries[1..], items[1..], at + |Tar.ItemBytes(cfg.codec, items[0])|)
    else Carried(cfg, entries[1..], items, at)
  }

  lemma LayoutHead(c: Tar.Codec, items: seq<Tar.Item>)
    requires |items| > 0
    ensures |Tar.Layout(c, items)| == |Tar.ItemBytes(c, items[0])| + |Tar.Layout(c, items[1..])|
  {
    Tar.LayoutSplit(c, items, 1);
    assert items[..1][..0] == [];
    assert Tar.Layout(c, items[..1]) == Tar.Layout(c, []) + Tar.ItemBytes(c, items[0]);
  }

  lemma CarriedUnfolds(cfg: Config, entries: seq<M.Entry>, items: seq<Tar.Item>, at: nat)
    requires |entries| > 0
    ensures Carried(cfg, entries, items, at) <==>
            if HasItem(entries[0]) then
              && |items| > 0 && Describes(cfg, entries[0], items[0], at)
              && Carried(cfg, entries[1..], items[1..], at + |Tar.ItemBytes(cfg.codec, items[0])|)
            else Carried(cfg, entries[1..], items, at)
  {
  }

  lemma CarriedNothing(cfg: Config, items: seq<Tar.Item>, at: nat)
    ensures Carried(cfg, [], items, at) <==> items == []
    ensures Tar.Layout(cfg.codec, []) == []
  {
  }

  lemma {:induction false} CarriedConcat(cfg: Config, a: seq<M.Entry>, x: seq<Tar.Item>, b: seq<M.Entry>, y: seq<Tar.Item>, at: nat)
    requires Carried(cfg, a, x, at) && Carried(cfg, b, y, at + |Tar.Layout(cfg.codec, x)|)
    ensures Carried(cfg, a + b, x + y, at)
    decreases |a|
  {
    hide *;
    if |a| == 0 {
      CarriedNothing(cfg, x, at);
      assert a + b == b && x + y == y;
    } else {
      CarriedUnfolds(cfg, a, x, at);
      CarriedUnfolds(cfg, a + b, x + y, at);
      assert (a + b)[1..] == a[1..] + b;
      if HasItem(a[0]) {
        LayoutHead(cfg.codec, x);
        assert (x + y)[1..] == x[1..] + y;
        CarriedConcat(cfg, a[1..], x[1..], b, y, at + |Tar.ItemBytes(cfg.codec, x[0])|);
      } else {
        CarriedConcat(cfg, a[1..], x, b, y, at);
      }
    }
  }

  // ------------------------------------------------------------------------ the walk

  ghost predicate Consistent(cfg: Config, p: Piece, at: nat) {
    Booked(p) && Carried(cfg, p.entries, p.items, at)
  }

  lemma ConsistentAppend(cfg: Config, p: Piece, q: Piece, at: nat)
    requires Consistent(cfg, p, at) && Consistent(cfg, q, at + Size(cfg, p))
    ensures Consistent(cfg, Append(p, q), at)
  {
    hide Booked, Carried, Tar.Layout;
    BookedAppend(p, q);
    CarriedConcat(cfg, p.entries, p.items, q.entries, q.items, at);
  }

  /** One entry and at most one item. */
  lemma ConsistentOne(cfg: Config, p: Piece, at: nat)
    requires |p.entries| == 1
    requires if HasItem(p.entries[0]) then |p.items| == 1 && Describes(cfg, p.entries[0], p.items[0], at)
             else |p.items| == 0
    requires var f := M.AddToFooter(M.FooterOf([]), p.entries[0]);
             && f.skipped == p.stats.skipped && f.stale == p.stats.stale
             && f.files == p.stats.stored + p.stats.unmodified + p.stats.stale
    ensures Consistent(cfg, p, at)
  {
    assert p.entries == [p.entries[0]];
    FooterOfOne(p.entries[0]);
  }

  lemma SkipFileShape(cfg: Config, path: string, reason: string, isVoid: bool)
    requires cfg.Valid()
    ensures var p, known := SkipFile(cfg, path, reason, isVoid), cfg.BaseFile(path).Some?;
            && |p.entries| == 1 && p.items == [] && p.progress == 0
            && var e := p.entries[0];
               && e.path == path && e.void_ == isVoid && !e.HasContentInSet() && e.stale == known
               && e.kind == (if known then M.FileKind else M.SkippedKind)
               && p.stats == if known then NO_STATS.(stale := 1) else NO_STATS.(skipped := 1)
  {
    assert cfg.BaseFile(path).Some? ==> ValidBaseFile(path, cfg.BaseFile(path).value);
  }

  lemma SkipFileConsistent(cfg: Config, path: string, reason: string, at: nat)
    requires cfg.Valid()
    ensures Consistent(cfg, SkipFile(cfg, path, reason, false), at)
  {
    hide Config.Valid, SkipFile, Config.BaseFile;
    SkipFileShape(cfg, path, reason, false);
    ConsistentOne(cfg, SkipFile(cfg, path, reason, false), at);
  }

  lemma StoredDescribes(cfg: Config, path: string, f: Node, at: nat)
    requires cfg.Valid() && f.File? && Paths.ValidatePath(path).None? && WriteFile(cfg, path, f, at).Stored?
    ensures var w := WriteFile(cfg, path, f, at); Describes(cfg, w.entry, w.item, at)
  {
    hide Paths.ValidatePath;
  }

  lemma BrokenIsComplete(cfg: Config, path: string, f: Node, at: nat)
    requires f.File? && Paths.ValidatePath(path).None? && WriteFile(cfg, path, f, at).Broken?
    ensures Tar.Writable(WriteFile(cfg, path, f, at).item) && WriteFile(cfg, path, f, at).item.name == path
  {
    hide Paths.ValidatePath;
  }

  lemma NothingConsistent(cfg: Config, p: Piece, at: nat)
    requires p.entries == [] && p.items == []
    requires p.stats.skipped == p.stats.stale == p.stats.stored == p.stats.unmodified == 0
    ensures Consistent(cfg, p, at)
  {
  }

  lemma AppendItem(item: Tar.Item, copied: nat, q: Piece)
    requires q.items == []
    ensures Append(NOTHING.(items := [item], progress := copied), q) ==
            Piece(q.entries, [item], q.stats, copied + q.progress)
  {
  }

  lemma EmptyConsistent(cfg: Config, at: nat)
    ensures Consistent(cfg, NOTHING, at)
  {
    NothingConsistent(cfg, NOTHING, at);
  }

  lemma BrokenConsistent(cfg: Config, path: string, item: Tar.Item, reason: string, copied: nat, at: nat)
    requires cfg.Valid() && item.name == path && Tar.Writable(item)
    ensures Consistent(cfg, Append(NOTHING.(items := [item], progress := copied), SkipFile(cfg, path, reason, true)), at)
  {
    hide Config.Valid, SkipFile, Config.BaseFile, Tar.Writable, Consistent, Append;
    var q := SkipFile(cfg, path, reason, true);
    SkipFileShape(cfg, path, reason, true);
    AppendItem(item, copied, q);
    ConsistentOne(cfg, Piece(q.entries, [item], q.stats, copied + q.progress), at);
  }

  lemma AddFileConsistent(cfg: Config, path: string, f: Node, at: nat)
    requires cfg.Valid() && f.File? && Paths.ValidatePath(path).None? && AddFile(cfg, path, f, at).Done?
    ensures Consistent(cfg, AddFile(cfg, path, f, at).piece, at)
  {
    var p, w, base := AddFile(cfg, path, f, at).piece, WriteFile(cfg, path, f, at), cfg.BaseFile(path);
    assert base.Some? ==> ValidBaseFile(path, base.value);
    if base.Some? && f.stat.Known? && Unchanged(base.value, f.listedSize, f.stat.meta) {
      ConsistentOne(cfg, p, at);
    } else if w.Stored? {
      StoredDescribes(cfg, path, f, at);
      ConsistentOne(cfg, p, at);
    } else if w.Broken? {
      BrokenIsComplete(cfg, path, f, at);
      BrokenConsistent(cfg, path, w.item, w.reason, w.copied, at);
    } else if w.fault.notExist {
      NothingConsistent(cfg, p, at);
    } else {
      SkipFileConsistent(cfg, path, w.fault.reason, at);
    }
  }

  lemma UnreadConsistent(cfg: Config, path: string, fault: Fault, at: nat)
    requires Unread(cfg, path, fault).Done?
    ensures Consistent(cfg, Unread(cfg, path, fault).piece, at)
  {
    if fault.notExist {
      NothingConsistent(cfg, Vanished(), at);
    } else {
      ConsistentOne(cfg, Skipped(path, fault.reason, false), at);
    }
  }

  lemma RecordedConsistent(cfg: Config, path: string, meta: Meta, at: nat)
    ensures Consistent(cfg, NOTHING.(entries := [DirEntry(path, meta)]), at)
  {
    ConsistentOne(cfg, NOTHING.(entries := [DirEntry(path, meta)]), at);
  }

  lemma RecordedSize(cfg: Config, path: string, meta: Meta)
    ensures Size(cfg, NOTHING.(entries := [DirEntry(path, meta)])) == 0
  {
  }

  lemma VisitAllUnfolds(cfg: Config, dir: string, nodes: seq<Node>, at: nat)
    ensures |nodes| == 0 ==> VisitAll(cfg, dir, nodes, at) == Done(NOTHING)
    ensures |nodes| > 0 && VisitAll(cfg, dir, nodes, at).Done? ==>
            var first := Visit(cfg, dir, nodes[0], at);
            && first.Done?
            && var later := VisitAll(cfg, dir, nodes[1..], at + Size(cfg, first.piece));
               later.Done? && VisitAll(cfg, dir, nodes, at) == Done(Append(first.piece, later.piece))
    ensures |nodes| > 0 && Visit(cfg, dir, nodes[0], at).Done?
            && VisitAll(cfg, dir, nodes[1..], at + Size(cfg, Visit(cfg, dir, nodes[0], at).piece)).Done? ==>
              VisitAll(cfg, dir, nodes, at).Done?
  {
    hide Visit, Append, Size;
  }

  lemma {:induction false} VisitConsistent(cfg: Config, dir: string, node: Node, at: nat)
    requires cfg.Valid() && Visit(cfg, dir, node, at).Done?
    ensures Consistent(cfg, Visit(cfg, dir, node, at).piece, at)
    decreases node, 0
  {
    hide AddFile, SkipFile, Unread, Consistent, Config.Valid, Paths.ValidatePath, Paths.Child, VisitAll, Append, DirEntry,
      M.FooterOf, M.AddToFooter, Size;
    var path, p := Paths.Child(dir, node.name), Visit(cfg, dir, node, at).piece;
    if cfg.isExcluded(path) || cfg.matches(path, node.Dir?) {
      NothingConsistent(cfg, p, at);
    } else if node.info.Some? {
      if !node.Dir? && !node.info.value.notExist && cfg.skipUnreadable {
        SkipFileConsistent(cfg, path, node.info.value.reason, at);
      } else {
        UnreadConsistent(cfg, path, node.info.value, at);
      }
    } else if node.Special? {
      NothingConsistent(cfg, p, at);
    } else if node.File? {
      AddFileConsistent(cfg, path, node, at);
    } else if node.stat.Unknown? {
      UnreadConsistent(cfg, path, node.stat.fault, at);
    } else {
      var recorded := NOTHING.(entries := [DirEntry(path, node.stat.meta)]);
      RecordedConsistent(cfg, path, node.stat.meta, at);
      if node.listing.Some? {
        if node.listing.value.notExist {
          NothingConsistent(cfg, Vanished(), at);
          RecordedSize(cfg, path, node.stat.meta);
          ConsistentAppend(cfg, recorded, Vanished(), at);
        } else {
          UnreadConsistent(cfg, path, node.listing.value, at);
        }
      } else {
        VisitAllConsistent(cfg, path, node.children, at);
        RecordedSize(cfg, path, node.stat.meta);
        ConsistentAppend(cfg, recorded, VisitAll(cfg, path, node.children, at).piece, at);
      }
    }
  }

  lemma {:induction false} VisitAllConsistent(cfg: Config, dir: string, nodes: seq<Node>, at: nat)
    requires cfg.Valid() && VisitAll(cfg, dir, nodes, at).Done?
    ensures Consistent(cfg, VisitAll(cfg, dir, nodes, at).piece, at)
    decreases nodes
  {
    hide *;
    VisitAllUnfolds(cfg, dir, nodes, at);
    if |nodes| == 0 {
      EmptyConsistent(cfg, at);
    } else {
      var first := Visit(cfg, dir, nodes[0], at).piece;
      VisitConsistent(cfg, dir, nodes[0], at);
      VisitAllConsistent(cfg, dir, nodes[1..], at + Size(cfg, first));
      ConsistentAppend(cfg, first, VisitAll(cfg, dir, nodes[1..], at + Size(cfg, first)).piece, at);
    }
  }

  /** Every run that is not aborted books what it did, and its TAR carries
      exactly the content and void entries of its manifest, in order. */
  lemma BackupConsistent(cfg: Config, source: Option<seq<Node>>)
    requires cfg.Valid() && Backup(cfg, source).Done?
    ensures var p := Backup(cfg, source).piece; Booked(p) && Carried(cfg, p.entries, p.items, 0)
  {
    VisitAllConsistent(cfg, "", source.value, 0);
  }
}
