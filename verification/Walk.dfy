/** What a backup run makes of a source directory under an arbitrary schedule of
    read faults: the reference semantics of BuildTar, as functions on trees. */
module Walk {
  import opened Wrappers
  import opened Binary
  import Paths
  import M = Manifest
  import Tar

  // ------------------------------------------------------------- sources and faults

  datatype Meta = Meta(modTime: int, changeTime: int, creationTime: int, attributes: bv32)

  datatype Fault = Fault(notExist: bool, reason: string)

  datatype Stat = Known(meta: Meta) | Unknown(fault: Fault)

  /** Opening a file and reading its size; reading then stops with an error after
      failure.value.0 bytes when failure is set. */
  datatype Opening = Refused(fault: Fault) | Opened(meta: Meta, size: nat, failure: Option<(nat, string)>)

  /** A directory entry, with what every access to it during the run yields. The
      content of a file is what reading delivers; it may be shorter or longer
      than the size seen when the file was opened. */
  datatype Node =
    | File(name: string, info: Option<Fault>, listedSize: nat, stat: Stat, opening: Opening, content: Bytes)
    | Dir(name: string, info: Option<Fault>, stat: Stat, listing: Option<Fault>, children: seq<Node>)
    | Special(name: string, info: Option<Fault>)

  /** The options of a run; base holds the files of the full backup by path. */
  datatype Config = Config(
    skipUnreadable: bool, isExcluded: string -> bool, matches: (string, bool) -> bool,
    base: Option<map<string, M.Entry>>, digest: Bytes -> string, codec: Tar.Codec)
  {
    function Origin(): M.Origin { if base.Some? then M.DiffOrigin else M.FullOrigin }

    function BaseFile(path: string): Option<M.Entry> {
      if base.Some? && path in base.value then Some(base.value[path]) else None
    }

    ghost predicate Valid() {
      && codec.Valid()
      && (forall b :: M.IsValidHash(digest(b)))
      && (base.Some? ==> forall p :: p in base.value ==> ValidBaseFile(p, base.value[p]))
    }
  }

  predicate ValidBaseFile(p: string, e: M.Entry) {
    && e.path == p && Paths.ValidatePath(p).None?
    && e.kind == M.FileKind && M.ValidateEntry(e, false)
  }

  // ------------------------------------------------------------------------ results

  datatype Stats = Stats(excluded: nat, skipped: nat, stale: nat, vanished: nat, unmodified: nat, stored: nat)

  /** What a part of the walk adds to the backup. */
  datatype Piece = Piece(entries: seq<M.Entry>, items: seq<Tar.Item>, stats: Stats, progress: nat)

  /** The last two are no matter of the source, and end the imperative run only. */
  datatype Error =
    | Unreadable(path: string, reason: string) | InvalidPath(path: string) | ScanFailed | Cancelled | WriteFailed

  datatype Outcome = Done(piece: Piece) | Aborted(error: Error)

  const NO_STATS: Stats := Stats(0, 0, 0, 0, 0, 0)
  const NOTHING: Piece := Piece([], [], NO_STATS, 0)

  function AddStats(a: Stats, b: Stats): Stats {
    Stats(a.excluded + b.excluded, a.skipped + b.skipped, a.stale + b.stale, a.vanished + b.vanished,
          a.unmodified + b.unmodified, a.stored + b.stored)
  }

  function Append(p: Piece, q: Piece): Piece {
    Piece(p.entries + q.entries, p.items + q.items, AddStats(p.stats, q.stats), p.progress + q.progress)
  }

  function Vanished(): Piece { NOTHING.(stats := NO_STATS.(vanished := 1)) }
  function Excluded(): Piece { NOTHING.(stats := NO_STATS.(excluded := 1)) }

  function Skipped(path: string, reason: string, isVoid: bool): Piece {
    NOTHING.(entries := [M.SkippedEntry(path, reason, isVoid)], stats := NO_STATS.(skipped := 1))
  }

  // -------------------------------------------------------------------------- files

  predicate Unchanged(base: M.Entry, size: nat, meta: Meta) {
    base.size == size && base.modTime == meta.modTime && base.changeTime == meta.changeTime
  }

  /** A file that a differential leaves alone. */
  predicate IsUnmodified(cfg: Config, path: string, f: Node)
    requires f.File?
  {
    cfg.BaseFile(path).Some? && f.stat.Known? && Unchanged(cfg.BaseFile(path).value, f.listedSize, f.stat.meta)
  }

  function FromBase(base: M.Entry, stale: bool, isVoid: bool): M.Entry {
    base.(origin := M.FullOrigin, offset := None, stale := stale, void_ := isVoid)
  }

  function SkipFile(cfg: Config, path: string, reason: string, isVoid: bool): Piece {
    match cfg.BaseFile(path)
    case Some(b) => NOTHING.(entries := [FromBase(b, true, isVoid)], stats := NO_STATS.(stale := 1))
    case None => Skipped(path, reason, isVoid)
  }

  /** How many bytes reading the opened file delivers at most. */
  function Available(f: Node): nat
    requires f.File? && f.opening.Opened?
  {
    if f.opening.failure.Some? && f.opening.failure.value.0 < |f.content| then f.opening.failure.value.0 else |f.content|
  }

  const SHRUNK: string := "the file became smaller during backup"
  const GREW: string := "the file grew during backup"

  /** writeFile: the file was not opened; its TAR entry was started but is
      unusable; or it is stored. */
  datatype Written =
    | NotOpened(fault: Fault)
    | Broken(item: Tar.Item, reason: string, copied: nat)
    | Stored(entry: M.Entry, item: Tar.Item)

  function WriteFile(cfg: Config, path: string, f: Node, at: nat): Written
    requires f.File?
  {
    match f.opening
    case Refused(fault) => NotOpened(fault)
    case Opened(meta, size, failure) =>
      var available := Available(f);
      if available < size then
        Broken(Tar.Item(path, true, size, f.content[..available] + Zeros(size - available)),
               if failure.Some? && failure.value.0 <= |f.content| then failure.value.1 else SHRUNK, available)
      else if available > size then Broken(Tar.Item(path, true, size, f.content[..size]), GREW, size)
      else
        Stored(M.Entry(path, M.FileKind, size, meta.modTime, meta.changeTime, meta.creationTime,
                       meta.attributes & M.ATTR_MASK, cfg.digest(f.content[..size]), cfg.Origin(), Some(at),
                       false, false, ""),
               Tar.Item(path, true, size, f.content[..size]))
  }

  function AddFile(cfg: Config, path: string, f: Node, at: nat): Outcome
    requires f.File?
  {
    if IsUnmodified(cfg, path, f) then
      Done(Piece([FromBase(cfg.BaseFile(path).value, false, false)], [], NO_STATS.(unmodified := 1), f.listedSize))
    else
      match WriteFile(cfg, path, f, at)
      case NotOpened(fault) =>
        if fault.notExist then Done(Vanished())
        else if !cfg.skipUnreadable then Aborted(Unreadable(path, fault.reason))
        else Done(SkipFile(cfg, path, fault.reason, false))
      case Broken(item, reason, copied) =>
        if !cfg.skipUnreadable then Aborted(Unreadable(path, reason))
        else Done(Append(NOTHING.(items := [item], progress := copied), SkipFile(cfg, path, reason, true)))
      case Stored(entry, item) =>
        Done(Piece([entry], [item], NO_STATS.(stored := 1), item.size))
  }

  // -------------------------------------------------------------------- directories

  function DirEntry(path: string, meta: Meta): M.Entry {
    M.Entry(path, M.DirKind, 0, meta.modTime, 0, meta.creationTime, meta.attributes & M.ATTR_MASK,
            "", M.NoOrigin, None, false, false, "")
  }

  /** A directory that could not be read: deleted, an error, or a skipped entry. */
  function Unread(cfg: Config, path: string, fault: Fault): Outcome {
    if fault.notExist then Done(Vanished())
    else if !cfg.skipUnreadable then Aborted(Unreadable(path, fault.reason))
    else Done(Skipped(path, fault.reason, false))
  }

  function Size(cfg: Config, p: Piece): nat { |Tar.Layout(cfg.codec, p.items)| }

  /** An entry of the walk and everything below it; `at` is the length of the TAR so far. */
  function Visit(cfg: Config, dir: string, node: Node, at: nat): Outcome
    decreases node, 0
  {
    var path := Paths.Child(dir, node.name);
    if cfg.isExcluded(path) then Done(NOTHING)
    else if cfg.matches(path, node.Dir?) then Done(Excluded())
    else if node.info.Some? then
      if !node.Dir? && !node.info.value.notExist && cfg.skipUnreadable then
        Done(SkipFile(cfg, path, node.info.value.reason, false))
      else Unread(cfg, path, node.info.value)
    else if node.Special? then Done(NOTHING)
    else if Paths.ValidatePath(path).Some? then Aborted(InvalidPath(path))
    else if node.File? then AddFile(cfg, path, node, at)
    else if node.stat.Unknown? then Unread(cfg, path, node.stat.fault)
    else
      var recorded := NOTHING.(entries := [DirEntry(path, node.stat.meta)]);
      if node.listing.Some? then
        if node.listing.value.notExist then Done(Append(recorded, Vanished()))
        else Unread(cfg, path, node.listing.value)
      else
        match VisitAll(cfg, path, node.children, at)
        case Aborted(e) => Aborted(e)
        case Done(below) => Done(Append(recorded, below))
  }

  function VisitAll(cfg: Config, dir: string, nodes: seq<Node>, at: nat): Outcome
    decreases nodes
  {
    if |nodes| == 0 then Done(NOTHING)
    else
      match Visit(cfg, dir, nodes[0], at)
      case Aborted(e) => Aborted(e)
      case Done(first) =>
        match VisitAll(cfg, dir, nodes[1..], at + Size(cfg, first))
        case Aborted(e) => Aborted(e)
        case Done(later) => Done(Append(first, later))
  }

  /** BuildTar: the whole source directory, None when it cannot be listed. */
  function Backup(cfg: Config, source: Option<seq<Node>>): Outcome {
    match source
    case None => Aborted(ScanFailed)
    case Some(nodes) => VisitAll(cfg, "", nodes, 0)
  }
}
