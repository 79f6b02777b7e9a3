/** BuildTar as it runs: the walk that writes the TAR stream and the manifest
    entry by entry, proved to do what Walk says unless it is cancelled or writing
    fails. */
module TarBuilder {
  import opened Wrappers
  import opened Binary
  import opened Walk
  import Paths
  import M = Manifest
  import Tar

  /** What a visit tells the walk: go on, leave the directory out, or stop. */
  datatype Next = GoOn | SkipDir | Fail(error: Error)

  class Builder {
    const cfg: Config
    const mb: M.Builder
    const tw: Tar.TarWriter
    var stats: Stats
    var progress: nat
    /** Whether the context was seen to be cancelled. */
    var cancelled: bool

    ghost predicate Valid()
      reads this, tw
    {
      tw.codec == cfg.codec && tw.Valid()
    }

    /** Everything the run added so far. */
    ghost function So(): Piece
      reads this, mb, tw
    {
      Piece(mb.entries, tw.items, stats, progress)
    }

    constructor (cfg: Config, header: M.Header)
      ensures this.cfg == cfg && fresh(mb) && fresh(tw) && Valid() && So() == NOTHING && tw.out == []
      ensures !cancelled && !tw.failed
    {
      this.cfg := cfg;
      mb := new M.Builder(header);
      tw := new Tar.TarWriter(cfg.codec);
      stats, progress, cancelled := NO_STATS, 0, false;
    }

    /** ctx.Err. */
    method IsCancelled() returns (c: bool)
      modifies this`cancelled
      ensures c == cancelled && (old(cancelled) ==> cancelled)
    {
      var cancels: bool := *;
      cancelled := cancelled || cancels;
      return cancelled;
    }

    method Add(e: M.Entry, counted: Stats)
      requires Valid()
      modifies this, mb
      ensures Valid() && So() == Append(old(So()), NOTHING.(entries := [e], stats := counted))
    {
      mb.Add(e);
      stats := AddStats(stats, counted);
      assert old(tw.items) + [] == old(tw.items);
    }

    method Count(counted: Stats)
      requires Valid()
      modifies this
      ensures Valid() && So() == Append(old(So()), NOTHING.(stats := counted))
    {
      stats := AddStats(stats, counted);
      assert mb.entries + [] == mb.entries && tw.items + [] == tw.items;
    }

    // ------------------------------------------------------------------------- files

    method SkipFile(path: string, reason: string, headerWritten: bool)
      requires Valid()
      modifies this, mb
      ensures Valid() && So() == Append(old(So()), Walk.SkipFile(cfg, path, reason, headerWritten))
    {
      var base := cfg.BaseFile(path);
      if base.Some? {
        Add(FromBase(base.value, true, headerWritten), NO_STATS.(stale := 1));
      } else {
        Add(M.SkippedEntry(path, reason, headerWritten), NO_STATS.(skipped := 1));
      }
    }

    /** io.CopyBuffer of at most size bytes of the file into the started entry. */
    method Copy(path: string, f: Node, size: nat) returns (copied: nat, ok: bool)
      requires f.File? && f.opening.Opened?
      requires tw.codec == cfg.codec && tw.Started(tw.items, path, size, [])
      modifies this`progress, tw`out, tw`left, tw`failed
      ensures !ok ==> tw.failed
      ensures ok ==>
                && copied == (if Available(f) < size then Available(f) else size) && copied <= |f.content|
                && tw.Started(tw.items, path, size, f.content[..copied])
                && progress == old(progress) + copied
    {
      copied := 0;
      assert f.content[..0] == [];
      while copied < size && copied < Available(f)
        invariant copied <= size && copied <= Available(f) <= |f.content|
        invariant tw.Started(tw.items, path, size, f.content[..copied])
        invariant progress == old(progress) + copied
      {
        var n: nat :| 0 < n <= size - copied && n <= Available(f) - copied;
        var read := f.content[copied..copied + n];
        assert f.content[..copied] + read == f.content[..copied + n];
        progress := progress + n;
        ok := tw.Write(read, path, size, f.content[..copied]);
        if !ok {
          return;
        }
        copied := copied + n;
      }
      ok := true;
    }

    /** writeFile; its fault is reported with whether the header was written. */
    method WriteFile(path: string, f: Node) returns (w: Written, ok: bool)
      requires Valid() && f.File?
      modifies this, tw
      ensures !ok ==> tw.failed
      ensures ok ==>
                && Valid() && w == Walk.WriteFile(cfg, path, f, Size(cfg, old(So())))
                && So() == Append(old(So()), WrittenPiece(w))
    {
      hide Tar.Layout, Tar.ItemBytes, Available;
      if f.opening.Refused? {
        assert mb.entries + [] == mb.entries && tw.items + [] == tw.items;
        return NotOpened(f.opening.fault), true;
      }
      var meta, size, failure := f.opening.meta, f.opening.size, f.opening.failure;
      w := NotOpened(Fault(false, ""));
      ok := tw.Flush();
      if !ok {
        return;
      }
      var offset := |tw.out|;
      ok := tw.WriteHeader(path, size);
      if !ok {
        return;
      }
      var copied;
      copied, ok := Copy(path, f, size);
      if !ok {
        return;
      }
      var head := f.content[..copied];
      assert mb.entries + [] == mb.entries;
      if copied < size {
        ok := tw.Write(Zeros(size - copied), path, size, head);
        if !ok {
          return;
        }
        tw.Finish(path, size, head + Zeros(size - copied));
        var cause := if failure.Some? && failure.value.0 <= |f.content| then failure.value.1 else SHRUNK;
        return Broken(Tar.Item(path, true, size, head + Zeros(size - copied)), cause, copied), true;
      }
      tw.Finish(path, size, head);
      if Available(f) > size {
        return Broken(Tar.Item(path, true, size, head), GREW, copied), true;
      }
      return Stored(M.Entry(path, M.FileKind, size, meta.modTime, meta.changeTime, meta.creationTime,
                            meta.attributes & M.ATTR_MASK, cfg.digest(head), cfg.Origin(), Some(offset), false, false, ""),
                    Tar.Item(path, true, size, head)), true;
    }

    method AddFile(path: string, f: Node) returns (e: Option<Error>)
      requires Valid() && f.File?
      modifies this, mb, tw
      ensures e != Some(Cancelled) && (e == Some(WriteFailed) ==> tw.failed)
      ensures Stops(e) || (Valid() && Did(e, Walk.AddFile(cfg, path, f, Size(cfg, old(So()))), old(So()), So()))
      ensures cfg.base.Some? && path in cfg.base.value && f.stat.Known? && cfg.base.value[path].size == f.listedSize
              && cfg.base.value[path].modTime == f.stat.meta.modTime
              && cfg.base.value[path].changeTime == f.stat.meta.changeTime ==>
                && e.None? && tw.out == old(tw.out) && tw.items == old(tw.items)
                && mb.entries == old(mb.entries) + [cfg.base.value[path].(origin := M.FullOrigin, offset := None,
                                                                        stale := false, void_ := false)]
                && stats == old(stats).(unmodified := old(stats).unmodified + 1)
    {
      hide Walk.WriteFile, Walk.SkipFile, Append, Size;
      ghost var before, at := So(), Size(cfg, So());
      var base := cfg.BaseFile(path);
      if base.Some? && f.stat.Known? && Unchanged(base.value, f.listedSize, f.stat.meta) {
        Add(FromBase(base.value, false, false), NO_STATS.(unmodified := 1));
        progress := progress + f.listedSize;
        ProgressAdded(before, FromBase(base.value, false, false), f.listedSize);
        ReferenceAdded(before, So(), base.value, f.listedSize);
        return None;
      }
      var w, ok := WriteFile(path, f);
      if !ok {
        return Some(WriteFailed);
      }
      match w
      case NotOpened(fault) =>
        AppendNothing(before);
        if fault.notExist {
          Count(NO_STATS.(vanished := 1));
          return None;
        } else if !cfg.skipUnreadable {
          return Some(Unreadable(path, fault.reason));
        }
        SkipFile(path, fault.reason, false);
        return None;
      case Broken(item, reason, _) =>
        if !cfg.skipUnreadable {
          return Some(Unreadable(path, reason));
        }
        SkipFile(path, reason, true);
        AppendAssociates(before, WrittenPiece(w), Walk.SkipFile(cfg, path, reason, true));
        return None;
      case Stored(entry, item) =>
        Add(entry, NO_STATS.(stored := 1));
        AppendStored(before, entry, item);
        return None;
    }

    // ------------------------------------------------------------------- directories

    /** unlisted: an entry that cannot be listed; WalkDir reports a directory again
        after it was recorded, and then the record becomes the skipped entry. */
    method Unlisted(path: string, fault: Fault) returns (r: Next)
      requires Valid()
      modifies this, mb
      ensures Valid()
      ensures r == if fault.notExist || cfg.skipUnreadable then SkipDir else Fail(Unreadable(path, fault.reason))
      ensures r == SkipDir ==>
                So() == if fault.notExist then Append(old(So()), Vanished()) else Unlist(old(So()), path, fault.reason)
    {
      hide Append, AddStats;
      if fault.notExist {
        Count(NO_STATS.(vanished := 1));
        return SkipDir;
      }
      if !cfg.skipUnreadable {
        return Fail(Unreadable(path, fault.reason));
      }
      var converted := mb.SkipLastDirectory(path, fault.reason);
      if !converted {
        mb.Add(M.SkippedEntry(path, fault.reason, false));
      }
      stats := AddStats(stats, NO_STATS.(skipped := 1));
      return SkipDir;
    }

    method SkipEntry(path: string, reason: string)
      requires Valid()
      modifies this, mb
      ensures Valid() && So() == Append(old(So()), Skipped(path, reason, false))
    {
      Add(M.SkippedEntry(path, reason, false), NO_STATS.(skipped := 1));
    }

    /** unstatable: the information of a listed entry cannot be read. */
    method Unstatable(path: string, node: Node) returns (r: Next)
      requires Valid() && node.info.Some?
      modifies this, mb
      ensures Valid()
      ensures var fault := node.info.value;
              if fault.notExist then r == NextOf(node) && So() == Append(old(So()), Vanished())
              else if !cfg.skipUnreadable then r == Fail(Unreadable(path, fault.reason))
              else
                && r == NextOf(node)
                && So() == Append(old(So()), if node.Dir? then Skipped(path, fault.reason, false)
                                             else Walk.SkipFile(cfg, path, fault.reason, false))
    {
      hide Append, Walk.SkipFile;
      var fault := node.info.value;
      if fault.notExist {
        Count(NO_STATS.(vanished := 1));
        return NextOf(node);
      }
      if !cfg.skipUnreadable {
        return Fail(Unreadable(path, fault.reason));
      }
      if node.Dir? {
        SkipEntry(path, fault.reason);
        return SkipDir;
      }
      SkipFile(path, fault.reason, false);
      return GoOn;
    }

    method AddDir(path: string, node: Node) returns (r: Next)
      requires Valid() && node.Dir?
      modifies this, mb
      ensures Valid()
      ensures if node.stat.Known? then
                r == GoOn && So() == Append(old(So()), NOTHING.(entries := [DirEntry(path, node.stat.meta)]))
              else if node.stat.fault.notExist || cfg.skipUnreadable then
                r == SkipDir && So() == Append(old(So()), Unread(cfg, path, node.stat.fault).piece)
              else r == Fail(Unreadable(path, node.stat.fault.reason))
    {
      hide Append, DirEntry;
      if node.stat.Unknown? {
        if node.stat.fault.notExist {
          Count(NO_STATS.(vanished := 1));
          return SkipDir;
        }
        if !cfg.skipUnreadable {
          return Fail(Unreadable(path, node.stat.fault.reason));
        }
        SkipEntry(path, node.stat.fault.reason);
        return SkipDir;
      }
      Add(DirEntry(path, node.stat.meta), NO_STATS);
      return GoOn;
    }

    /** visit, for a listed entry: a directory whose content the walk goes on to
        is recorded; for any other entry this is all that happens, and only a
        directory is answered with SkipDir. */
    method Visit(dir: string, node: Node) returns (r: Next)
      requires Valid()
      modifies this, mb, tw
      ensures (r == Fail(Cancelled) ==> cancelled) && (r == Fail(WriteFailed) ==> tw.failed)
      ensures Interrupted(r) || Valid()
      ensures !Interrupted(r) && Enters(cfg, dir, node) ==>
                && r == GoOn
                && So() == Append(old(So()), NOTHING.(entries := [DirEntry(Paths.Child(dir, node.name), node.stat.meta)]))
      ensures !Interrupted(r) && !Enters(cfg, dir, node) ==>
                && (!r.Fail? ==> r == NextOf(node))
                && Did(if r.Fail? then Some(r.error) else None,
                       Walk.Visit(cfg, dir, node, Size(cfg, old(So()))), old(So()), So())
    {
      hide Append, DirEntry, Paths.ValidatePath, Paths.Child, Walk.AddFile, Walk.SkipFile, Size, VisitAll;
      var stop := IsCancelled();
      if stop {
        return Fail(Cancelled);
      }
      var path := Paths.Child(dir, node.name);
      if cfg.isExcluded(path) {
        AppendNothing(So());
        return NextOf(node);
      }
      if cfg.matches(path, node.Dir?) {
        Count(NO_STATS.(excluded := 1));
        return NextOf(node);
      }
      if node.info.Some? {
        r := Unstatable(path, node);
        return;
      }
      if node.Special? {
        AppendNothing(So());
        return GoOn;
      }
      if Paths.ValidatePath(path).Some? {
        return Fail(InvalidPath(path));
      }
      if node.Dir? {
        r := AddDir(path, node);
      } else {
        var e := AddFile(path, node);
        r := if e.Some? then Fail(e.value) else GoOn;
      }
    }

    // ---------------------------------------------------------------------- the walk

    /** filepath.WalkDir below the source directory. */
    method WalkEntry(dir: string, node: Node) returns (e: Option<Error>)
      requires Valid()
      modifies this, mb, tw
      ensures (e == Some(Cancelled) ==> cancelled) && (e == Some(WriteFailed) ==> tw.failed)
      ensures Stops(e) || (Valid() && Did(e, Walk.Visit(cfg, dir, node, Size(cfg, old(So()))), old(So()), So()))
      decreases node, 0
    {
      hide *;
      ghost var before, at := So(), Size(cfg, So());
      var path := Paths.Child(dir, node.name);
      EntersUnfolds(cfg, dir, node, before);
      StopsUnfolds();
      var r := Visit(dir, node);
      DidAborted(Walk.Visit(cfg, dir, node, at), before, So());
      NextUnfolds(node);
      match r
      case Fail(error) =>
        return Some(error);
      case SkipDir =>
        return None;
      case GoOn =>
        if !node.Dir? {
          return None;
        }
        ghost var here := NOTHING.(entries := [DirEntry(path, node.stat.meta)]);
        if node.listing.Some? {
          var stop := IsCancelled();
          if stop {
            return Some(Cancelled);
          }
          r := Unlisted(path, node.listing.value);
          EnteredUnlisted(cfg, dir, node, before, So());
          return if r.Fail? then Some(r.error) else None;
        }
        SizeAfterDir(cfg, before, path, node.stat.meta);
        e := WalkAll(path, node.children);
        if !Stops(e) {
          EnteredListed(cfg, dir, node, before, So(), e);
        }
    }

    method WalkAll(dir: string, nodes: seq<Node>) returns (e: Option<Error>)
      requires Valid()
      modifies this, mb, tw
      ensures (e == Some(Cancelled) ==> cancelled) && (e == Some(WriteFailed) ==> tw.failed)
      ensures Stops(e) || (Valid() && Did(e, VisitAll(cfg, dir, nodes, Size(cfg, old(So()))), old(So()), So()))
      decreases nodes
    {
      hide *;
      ghost var before, at, done := So(), Size(cfg, So()), NOTHING;
      AppendNothing(before);
      ResumeNothing(cfg, VisitAll(cfg, dir, nodes, at));
      assert nodes[0..] == nodes;
      for i := 0 to |nodes|
        invariant Valid() && So() == Append(before, done)
        invariant VisitAll(cfg, dir, nodes, at) == Resume(done, VisitAll(cfg, dir, nodes[i..], at + Size(cfg, done)))
      {
        ghost var rest, here := nodes[i..], at + Size(cfg, done);
        assert rest[0] == nodes[i] && rest[1..] == nodes[i + 1..];
        SizeOfAppend(cfg, before, done);
        e := WalkEntry(dir, nodes[i]);
        if Stops(e) {
          return;
        }
        VisitAllStep(cfg, dir, rest, here, done);
        DidUnfolds(e, Walk.Visit(cfg, dir, nodes[i], here), Append(before, done), So());
        if e.Some? {
          DidAborted(VisitAll(cfg, dir, nodes, at), before, So());
          return;
        }
        ghost var piece := Walk.Visit(cfg, dir, nodes[i], here).piece;
        AppendAssociates(before, done, piece);
        SizeOfAppend(cfg, done, piece);
        done := Append(done, piece);
      }
      VisitAllDone(cfg, dir, nodes[|nodes|..], at + Size(cfg, done), done);
      DidDone(VisitAll(cfg, dir, nodes, at), done, before, So());
      e := None;
    }

    method Close() returns (ok: bool)
      requires Valid()
      modifies tw
      ensures !ok ==> tw.failed
      ensures ok ==> tw.out == Tar.Archive(cfg.codec, old(tw.items))
    {
      ok := tw.Close();
    }
  }

  /** The run ended for a reason that is no matter of the source. */
  predicate Stops(e: Option<Error>) { e == Some(Cancelled) || e == Some(WriteFailed) }

  predicate Interrupted(r: Next) { r.Fail? && Stops(Some(r.error)) }

  lemma StopsUnfolds()
    ensures forall r: Next :: Interrupted(r) <==> r.Fail? && Stops(Some(r.error))
    ensures Stops(Some(Cancelled)) && Stops(Some(WriteFailed)) && !Stops(None)
  {
  }

  /** The answer for an entry the walk does not go into. */
  function NextOf(node: Node): Next { if node.Dir? then SkipDir else GoOn }

  /** A directory that visit records and whose content is read next. */
  predicate Enters(cfg: Config, dir: string, node: Node) {
    var path := Paths.Child(dir, node.name);
    && !cfg.isExcluded(path) && !cfg.matches(path, node.Dir?) && node.Dir?
    && node.info.None? && Paths.ValidatePath(path).None? && node.stat.Known?
  }

  lemma EntersUnfolds(cfg: Config, dir: string, node: Node, before: Piece)
    ensures Enters(cfg, dir, node) ==> node.Dir? && node.stat.Known?
  {
  }

  lemma NextUnfolds(node: Node)
    ensures NextOf(node) == if node.Dir? then SkipDir else GoOn
  {
  }

  /** The record of the directory path, when it is the last one, or else nothing,
      gives way to a skipped entry. */
  function Unlist(p: Piece, path: string, reason: string): Piece {
    var n := |p.entries| - 1;
    var converts := n >= 0 && p.entries[n].path == path && p.entries[n].kind == M.DirKind;
    Piece((if converts then p.entries[..n] else p.entries) + [M.SkippedEntry(path, reason, false)], p.items,
          AddStats(p.stats, NO_STATS.(skipped := 1)), p.progress)
  }

  lemma UnlistRecorded(p: Piece, path: string, meta: Meta, reason: string)
    ensures Unlist(Append(p, NOTHING.(entries := [DirEntry(path, meta)])), path, reason)
            == Append(p, Skipped(path, reason, false))
  {
    var es := p.entries + [DirEntry(path, meta)];
    assert es[..|es| - 1] == p.entries && es[|es| - 1].path == path;
  }

  lemma DidUnfolds(e: Option<Error>, outcome: Outcome, before: Piece, after: Piece)
    requires Did(e, outcome, before, after)
    ensures e.None? <==> outcome.Done?
    ensures outcome.Done? ==> after == Append(before, outcome.piece)
    ensures outcome.Aborted? ==> e == Some(outcome.error)
  {
  }

  lemma DidAborted(outcome: Outcome, before: Piece, after: Piece)
    ensures outcome.Aborted? ==> Did(Some(outcome.error), outcome, before, after)
  {
  }

  lemma DidDone(outcome: Outcome, piece: Piece, before: Piece, after: Piece)
    requires outcome == Done(piece) && after == Append(before, piece)
    ensures Did(None, outcome, before, after)
  {
  }

  lemma SizeOfAppend(cfg: Config, p: Piece, q: Piece)
    ensures Size(cfg, Append(p, q)) == Size(cfg, p) + Size(cfg, q)
  {
    var items := p.items + q.items;
    Tar.LayoutSplit(cfg.codec, items, |p.items|);
    assert items[..|p.items|] == p.items && items[|p.items|..] == q.items;
    hide Tar.Layout;
  }

  lemma SizeAfterDir(cfg: Config, p: Piece, path: string, meta: Meta)
    ensures Size(cfg, Append(p, NOTHING.(entries := [DirEntry(path, meta)]))) == Size(cfg, p)
  {
    assert p.items + [] == p.items;
    hide Tar.Layout;
  }

  lemma EnteredUnlisted(cfg: Config, dir: string, node: Node, before: Piece, after: Piece)
    requires Enters(cfg, dir, node) && node.listing.Some?
    requires var path, fault := Paths.Child(dir, node.name), node.listing.value;
             var recorded := Append(before, NOTHING.(entries := [DirEntry(path, node.stat.meta)]));
             fault.notExist || cfg.skipUnreadable ==>
               after == if fault.notExist then Append(recorded, Vanished()) else Unlist(recorded, path, fault.reason)
    ensures var path, fault := Paths.Child(dir, node.name), node.listing.value;
            Did(if fault.notExist || cfg.skipUnreadable then None else Some(Unreadable(path, fault.reason)),
                Walk.Visit(cfg, dir, node, Size(cfg, before)), before, after)
  {
    hide Append, DirEntry, Paths.ValidatePath, Paths.Child, Size, VisitAll, Unlist;
    var path := Paths.Child(dir, node.name);
    AppendAssociates(before, NOTHING.(entries := [DirEntry(path, node.stat.meta)]), Vanished());
    UnlistRecorded(before, path, node.stat.meta, node.listing.value.reason);
  }

  lemma EnteredListed(cfg: Config, dir: string, node: Node, before: Piece, after: Piece, e: Option<Error>)
    requires Enters(cfg, dir, node) && node.listing.None?
    requires var path := Paths.Child(dir, node.name);
             Did(e, VisitAll(cfg, path, node.children, Size(cfg, before)),
                 Append(before, NOTHING.(entries := [DirEntry(path, node.stat.meta)])), after)
    ensures Did(e, Walk.Visit(cfg, dir, node, Size(cfg, before)), before, after)
  {
    hide Append, DirEntry, Paths.ValidatePath, Paths.Child, Size, VisitAll;
    var path := Paths.Child(dir, node.name);
    var below := VisitAll(cfg, path, node.children, Size(cfg, before));
    if below.Done? {
      AppendAssociates(before, NOTHING.(entries := [DirEntry(path, node.stat.meta)]), below.piece);
    }
  }

  /** The outcome of a walk of which this much is done. */
  function Resume(done: Piece, rest: Outcome): Outcome {
    match rest
    case Done(piece) => Outcome.Done(Append(done, piece))
    case Aborted(error) => Aborted(error)
  }

  lemma ResumeNothing(cfg: Config, outcome: Outcome)
    ensures Resume(NOTHING, outcome) == outcome && Size(cfg, NOTHING) == 0
  {
    if outcome.Done? {
      var p := outcome.piece;
      assert [] + p.entries == p.entries && [] + p.items == p.items;
    }
  }

  lemma VisitAllStep(cfg: Config, dir: string, nodes: seq<Node>, at: nat, done: Piece)
    requires |nodes| > 0
    ensures var first := Walk.Visit(cfg, dir, nodes[0], at);
            Resume(done, VisitAll(cfg, dir, nodes, at)) ==
            match first
            case Aborted(error) => Aborted(error)
            case Done(piece) => Resume(Append(done, piece), VisitAll(cfg, dir, nodes[1..], at + Size(cfg, piece)))
  {
    hide Walk.Visit, Append, Size;
    var first := Walk.Visit(cfg, dir, nodes[0], at);
    if first.Done? {
      var later := VisitAll(cfg, dir, nodes[1..], at + Size(cfg, first.piece));
      if later.Done? {
        AppendAssociates(done, first.piece, later.piece);
      }
    }
  }

  lemma VisitAllDone(cfg: Config, dir: string, nodes: seq<Node>, at: nat, done: Piece)
    requires nodes == []
    ensures Resume(done, VisitAll(cfg, dir, nodes, at)) == Done(done)
  {
    AppendNothing(done);
  }

  /** BuildTar: the manifest entries, the TAR stream and the counts of a run are
      those of Backup, unless it is cancelled or writing fails. */
  method BuildTar(cfg: Config, header: M.Header, source: Option<seq<Node>>) returns (b: Builder, e: Option<Error>)
    ensures (e == Some(Cancelled) ==> b.cancelled) && (e == Some(WriteFailed) ==> b.tw.failed)
    ensures Stops(e) ||
            match Backup(cfg, source)
            case Done(p) =>
              && e.None? && b.mb.entries == p.entries && b.tw.out == Tar.Archive(cfg.codec, p.items)
              && b.stats == p.stats && b.progress == p.progress
            case Aborted(error) => e == Some(error)
  {
    hide *;
    b := new Builder(cfg, header);
    StopsUnfolds();
    var stop := b.IsCancelled();
    if stop {
      return b, Some(Cancelled);
    }
    if source.None? {
      BackupUnfolds(cfg, []);
      return b, Some(ScanFailed);
    }
    BackupUnfolds(cfg, source.value);
    ResumeNothing(cfg, VisitAll(cfg, "", source.value, 0));
    e := b.WalkAll("", source.value);
    if Stops(e) {
      return;
    }
    SoUnfolds(b);
    DidUnfolds(e, VisitAll(cfg, "", source.value, 0), NOTHING, b.So());
    if e.None? {
      NothingAppend(VisitAll(cfg, "", source.value, 0).piece);
      var ok := b.Close();
      if !ok {
        return b, Some(WriteFailed);
      }
    }
  }

  lemma SoUnfolds(b: Builder)
    ensures b.So() == Piece(b.mb.entries, b.tw.items, b.stats, b.progress)
  {
  }

  lemma BackupUnfolds(cfg: Config, nodes: seq<Node>)
    ensures Backup(cfg, Some(nodes)) == VisitAll(cfg, "", nodes, 0) && Backup(cfg, None) == Aborted(ScanFailed)
  {
  }

  lemma NothingAppend(p: Piece)
    ensures Append(NOTHING, p) == p
  {
    assert [] + p.entries == p.entries && [] + p.items == p.items;
  }

  /** The TAR entry a written file leaves, and the bytes that were read for it. */
  function WrittenPiece(w: Written): Piece {
    match w
    case NotOpened(_) => NOTHING
    case Broken(item, _, copied) => NOTHING.(items := [item], progress := copied)
    case Stored(_, item) => NOTHING.(items := [item], progress := item.size)
  }

  /** A part of the run did what the outcome says. */
  ghost predicate Did(e: Option<Error>, outcome: Outcome, before: Piece, after: Piece) {
    match outcome
    case Done(piece) => e.None? && after == Append(before, piece)
    case Aborted(error) => e == Some(error)
  }

  lemma AppendNothing(p: Piece)
    ensures Append(p, NOTHING) == p
  {
  }

  lemma AppendAssociates(p: Piece, q: Piece, r: Piece)
    ensures Append(Append(p, q), r) == Append(p, Append(q, r))
  {
    assert p.entries + q.entries + r.entries == p.entries + (q.entries + r.entries);
    assert p.items + q.items + r.items == p.items + (q.items + r.items);
  }

  lemma ProgressAdded(p: Piece, e: M.Entry, n: nat)
    ensures var q := Append(p, NOTHING.(entries := [e], stats := NO_STATS.(unmodified := 1)));
            q.(progress := q.progress + n) == Append(p, Piece([e], [], NO_STATS.(unmodified := 1), n))
  {
  }

  lemma ReferenceAdded(p: Piece, q: Piece, base: M.Entry, n: nat)
    requires q == Append(p, Piece([FromBase(base, false, false)], [], NO_STATS.(unmodified := 1), n))
    ensures q.entries == p.entries + [base.(origin := M.FullOrigin, offset := None, stale := false, void_ := false)]
    ensures q.items == p.items && q.stats == p.stats.(unmodified := p.stats.unmodified + 1)
  {
    assert p.items + [] == p.items;
  }

  lemma AppendStored(p: Piece, e: M.Entry, item: Tar.Item)
    ensures Append(Append(p, NOTHING.(items := [item], progress := item.size)),
                   NOTHING.(entries := [e], stats := NO_STATS.(stored := 1)))
            == Append(p, Piece([e], [item], NO_STATS.(stored := 1), item.size))
  {
    assert p.items + [item] + [] == p.items + [item];
  }
}
