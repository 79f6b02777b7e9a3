/** A differential restores the later state from two archives: what a run's
    entries and items provide is what its source held, as far as reading
    delivered it. */
module Differential {
  import opened Wrappers
  import opened Binary
  import opened Walk
  import opened WalkLaws
  import opened Decide
  import opened Restorer
  import M = Manifest
  import Paths
  import Tar

  // ------------------------------------------------------------------ the wanted state

  /** The times and restorable attributes of a path. */
  datatype Mark = Mark(path: string, modTime: int, changeTime: int, creationTime: int, attributes: bv32)

  /** Files with their contents, the marks of files, and those of directories. */
  datatype State = State(files: set<(string, Bytes)>, marks: set<Mark>, dirs: set<Mark>)

  const EMPTY: State := State({}, {}, {})

  function Union(a: State, b: State): State { State(a.files + b.files, a.marks + b.marks, a.dirs + b.dirs) }

  function MarkOf(e: M.Entry): Mark { Mark(e.path, e.modTime, e.changeTime, e.creationTime, e.attributes) }

  /** The marks of a file as the run sees them; the change time of a directory is not kept. */
  function CurrentMark(path: string, meta: Meta): Mark {
    Mark(path, meta.modTime, meta.changeTime, meta.creationTime, meta.attributes & M.ATTR_MASK)
  }

  function DirMark(path: string, meta: Meta): Mark { CurrentMark(path, meta).(changeTime := 0) }

  function OneFile(path: string, content: Bytes, mark: Mark): State { State({(path, content)}, {mark}, {}) }

  /** The version of the full backup, when it has one. */
  function Older(cfg: Config, path: string, full: Contents): State {
    if path in full && cfg.BaseFile(path).Some? then OneFile(path, full[path], MarkOf(cfg.BaseFile(path).value))
    else EMPTY
  }

  /** Reading delivered as many bytes as the size that was seen when the file was opened. */
  predicate IsReadable(f: Node)
    requires f.File?
  {
    f.opening.Opened? && Available(f) == f.opening.size
  }

  /** Reading stopped with an error exactly at that size, with more content behind it. */
  predicate StopsAtSize(f: Node)
    requires f.File?
  {
    && f.opening.Opened? && f.opening.failure.Some?
    && f.opening.failure.value.0 == f.opening.size < |f.content|
  }

  /** A file that was left alone or that could be read has its current content
      and times; one that was deleted meanwhile has none; any other keeps its
      older version. With `seen`, a file ends where reading it stopped. */
  function FileState(cfg: Config, path: string, f: Node, full: Contents, seen: bool): State
    requires f.File?
  {
    if IsUnmodified(cfg, path, f) then OneFile(path, f.content, CurrentMark(path, f.stat.meta))
    else if IsReadable(f) then
      OneFile(path, if seen then f.content[..f.opening.size] else f.content, CurrentMark(path, f.opening.meta))
    else if f.opening.Refused? && f.opening.fault.notExist then EMPTY
    else Older(cfg, path, full)
  }

  /** What was deleted while the run looked at it is not part of the state; an entry
      without information, of which nothing tells what it is, is a file that cannot
      be read. With `seen`, a directory that the run has recorded stays. */
  function NodeState(cfg: Config, dir: string, node: Node, full: Contents, seen: bool): State
    decreases node, 0
  {
    var path := Paths.Child(dir, node.name);
    if cfg.isExcluded(path) || cfg.matches(path, node.Dir?) then EMPTY
    else if node.info.Some? then
      if node.Dir? || node.info.value.notExist then EMPTY else Older(cfg, path, full)
    else
      match node
      case Special(_, _) => EMPTY
      case File(_, _, _, _, _, _) => FileState(cfg, path, node, full, seen)
      case Dir(_, _, stat, listing, children) =>
        if stat.Unknown? then EMPTY
        else
          var here := State({}, {}, {DirMark(path, stat.meta)});
          if listing.None? then Union(here, TreeState(cfg, path, children, full, seen))
          else if listing.value.notExist && seen then here
          else EMPTY
  }

  function TreeState(cfg: Config, dir: string, nodes: seq<Node>, full: Contents, seen: bool): State
    decreases nodes
  {
    if |nodes| == 0 then EMPTY
    else Union(NodeState(cfg, dir, nodes[0], full, seen), TreeState(cfg, dir, nodes[1..], full, seen))
  }

  /** The state a backup of the source is for, and the part of it that reading delivered. */
  function WantedAll(cfg: Config, dir: string, nodes: seq<Node>, full: Contents): State {
    TreeState(cfg, dir, nodes, full, false)
  }

  function SeenAll(cfg: Config, dir: string, nodes: seq<Node>, full: Contents): State {
    TreeState(cfg, dir, nodes, full, true)
  }

  /** No file that the run stores has content behind the place where reading stopped. */
  predicate Whole(cfg: Config, dir: string, node: Node)
    decreases node, 0
  {
    var path := Paths.Child(dir, node.name);
    || cfg.isExcluded(path) || cfg.matches(path, node.Dir?) || node.info.Some?
    || (match node
        case Special(_, _) => true
        case File(_, _, _, _, _, _) => IsUnmodified(cfg, path, node) || !StopsAtSize(node)
        case Dir(_, _, stat, listing, children) => stat.Unknown? || listing.Some? || AllWhole(cfg, path, children))
  }

  predicate AllWhole(cfg: Config, dir: string, nodes: seq<Node>)
    decreases nodes
  {
    |nodes| > 0 ==> Whole(cfg, dir, nodes[0]) && AllWhole(cfg, dir, nodes[1..])
  }

  /** No directory that the run records is gone when it is listed. */
  predicate Listed(cfg: Config, dir: string, node: Node)
    decreases node, 0
  {
    var path := Paths.Child(dir, node.name);
    || cfg.isExcluded(path) || cfg.matches(path, node.Dir?) || node.info.Some?
    || (match node
        case Special(_, _) => true
        case File(_, _, _, _, _, _) => true
        case Dir(_, _, stat, listing, children) =>
          stat.Unknown? || (if listing.Some? then !listing.value.notExist else AllListed(cfg, path, children)))
  }

  predicate AllListed(cfg: Config, dir: string, nodes: seq<Node>)
    decreases nodes
  {
    |nodes| > 0 ==> Listed(cfg, dir, nodes[0]) && AllListed(cfg, dir, nodes[1..])
  }

  /** The one hypothesis: a file with the size, last-write time and change time
      of the full backup has its content, creation time and attributes. */
  predicate Faithful(cfg: Config, dir: string, node: Node, full: Contents)
    decreases node, 0
  {
    var path := Paths.Child(dir, node.name);
    match node
    case Special(_, _) => true
    case File(_, _, _, _, _, _) => IsUnmodified(cfg, path, node) ==> IsSame(cfg.BaseFile(path).value, path, node, full)
    case Dir(_, _, _, _, children) => AllFaithful(cfg, path, children, full)
  }

  predicate IsSame(base: M.Entry, path: string, f: Node, full: Contents)
    requires f.File? && f.stat.Known?
  {
    && path in full && full[path] == f.content
    && base.creationTime == f.stat.meta.creationTime && base.attributes == f.stat.meta.attributes & M.ATTR_MASK
  }

  predicate AllFaithful(cfg: Config, dir: string, nodes: seq<Node>, full: Contents)
    decreases nodes
  {
    |nodes| > 0 ==> Faithful(cfg, dir, nodes[0], full) && AllFaithful(cfg, dir, nodes[1..], full)
  }

  // ------------------------------------------------------------------- what reading misses

  /** A stored file has the whole content exactly when reading did not stop at its
      size with more content behind it. The code asks for one more byte and takes
      an error for the end of the file. */
  lemma StoredIsWhole(cfg: Config, path: string, f: Node, at: nat)
    requires f.File? && WriteFile(cfg, path, f, at).Stored?
    ensures WriteFile(cfg, path, f, at).item.content == f.content <==> !StopsAtSize(f)
  {
    assert f.content[..|f.content|] == f.content;
    hide Config.Origin;
  }

  /** A file that grew, and whose new bytes cannot be read, is such a file: it is
      stored as intact without them. */
  lemma GrownFileIsStored(cfg: Config, path: string, name: string, meta: Meta, size: nat, reason: string, content: Bytes, at: nat)
    requires size < |content|
    ensures var f := File(name, None, size, Known(meta), Opened(meta, size, Some((size, reason))), content);
            && StopsAtSize(f) && WriteFile(cfg, path, f, at).Stored?
            && WriteFile(cfg, path, f, at).item.content == content[..size] != content
  {
    assert |content[..size]| != |content|;
  }

  /** A directory that is deleted after it was recorded and before it is listed is
      counted as vanished, and nevertheless is in the backup. */
  lemma VanishedDirIsKept(cfg: Config, dir: string, name: string, meta: Meta, reason: string, children: seq<Node>, at: nat,
                          full: Contents)
    requires Paths.ValidatePath(Paths.Child(dir, name)).None?
    requires !cfg.isExcluded(Paths.Child(dir, name)) && !cfg.matches(Paths.Child(dir, name), true)
    ensures var node := Dir(name, None, Known(meta), Some(Fault(true, reason)), children);
            && !Listed(cfg, dir, node) && NodeState(cfg, dir, node, full, false) == EMPTY
            && Visit(cfg, dir, node, at).Done? && Visit(cfg, dir, node, at).piece.stats.vanished == 1
            && Visit(cfg, dir, node, at).piece.entries == [DirEntry(Paths.Child(dir, name), meta)]
  {
    hide Paths.ValidatePath, Paths.Child, DirEntry, VisitAll, TreeState, AllListed, DirMark, Union, Older, AddFile, SkipFile;
    var here := DirEntry(Paths.Child(dir, name), meta);
    assert [here] + [] == [here];
  }

  /** The paths of the files and directories of a state. */
  function PathsOf(s: State): set<string> { (set x | x in s.files :: x.0) + (set m | m in s.dirs :: m.path) }

  function EntryPaths(entries: seq<M.Entry>): set<string> { set e | e in entries :: e.path }

  lemma PathsOfUnion(a: State, b: State)
    ensures PathsOf(Union(a, b)) == PathsOf(a) + PathsOf(b)
  {
  }

  /** The first state has a directory where the second has nothing. */
  ghost predicate HasMore(a: State, b: State) { exists m :: m in a.dirs && m.path !in PathsOf(b) }

  lemma MoreInUnion(a: State, b: State, a': State, b': State)
    requires HasMore(a, b) && PathsOf(a) !! PathsOf(b')
    ensures HasMore(Union(a, a'), Union(b, b')) && HasMore(Union(a', a), Union(b', b))
  {
    var m :| m in a.dirs && m.path !in PathsOf(b);
    assert m.path in PathsOf(a);
    PathsOfUnion(b, b');
    PathsOfUnion(b', b);
    hide PathsOf;
    assert m in Union(a, a').dirs && m in Union(a', a).dirs;
  }

  /** The two states give some file different contents. */
  ghost predicate Differ(a: State, b: State) {
    exists p, x, y :: x != y && (p, x) in a.files && (p, y) in b.files
  }

  lemma DifferInUnion(a: State, b: State, a': State, b': State)
    requires Differ(a, b)
    ensures Differ(Union(a, a'), Union(b, b')) && Differ(Union(a', a), Union(b', b))
  {
    var p, x, y :| x != y && (p, x) in a.files && (p, y) in b.files;
    assert (p, x) in Union(a, a').files && (p, y) in Union(b, b').files;
    assert (p, x) in Union(a', a).files && (p, y) in Union(b', b).files;
  }

  /** What the run has seen has the marks of the wanted files, and all wanted
      directories and paths. */
  ghost predicate Covers(seen: State, wanted: State) {
    seen.marks == wanted.marks && wanted.dirs <= seen.dirs && PathsOf(wanted) <= PathsOf(seen)
  }

  lemma CoversUnion(a: State, b: State, a': State, b': State)
    requires Covers(a, b) && Covers(a', b')
    ensures Covers(Union(a, a'), Union(b, b'))
  {
    PathsOfUnion(a, a');
    PathsOfUnion(b, b');
    hide PathsOf;
  }

  lemma SeenFile(cfg: Config, path: string, f: Node, full: Contents)
    requires f.File?
    ensures var seen, wanted := FileState(cfg, path, f, full, true), FileState(cfg, path, f, full, false);
            && Covers(seen, wanted) && seen.dirs == wanted.dirs
            && (if IsUnmodified(cfg, path, f) || !StopsAtSize(f) then seen.files == wanted.files else Differ(seen, wanted))
  {
    hide IsUnmodified, Older, CurrentMark;
    var seen, wanted := FileState(cfg, path, f, full, true), FileState(cfg, path, f, full, false);
    assert f.content[..|f.content|] == f.content;
    if !IsUnmodified(cfg, path, f) && StopsAtSize(f) {
      var x, y := f.content[..f.opening.size], f.content;
      assert |x| != |y| && (path, x) in seen.files && (path, y) in wanted.files;
    }
  }

  lemma {:induction false} SeenNode(cfg: Config, dir: string, node: Node, full: Contents)
    ensures var seen, wanted := NodeState(cfg, dir, node, full, true), NodeState(cfg, dir, node, full, false);
            && Covers(seen, wanted) && (Listed(cfg, dir, node) ==> seen.dirs == wanted.dirs)
            && (if Whole(cfg, dir, node) then seen.files == wanted.files else Differ(seen, wanted))
    decreases node, 0
  {
    var path := Paths.Child(dir, node.name);
    hide FileState, TreeState, AllWhole, AllListed, IsUnmodified, StopsAtSize, Older, Paths.Child, DirMark, Differ, Covers;
    CoversItself(NodeState(cfg, dir, node, full, false));
    if node.File? {
      SeenFile(cfg, path, node, full);
    } else if node.Dir? && node.stat.Known? {
      var here := State({}, {}, {DirMark(path, node.stat.meta)});
      CoversItself(here);
      CoversNothing(here);
      if node.listing.None? {
        SeenTree(cfg, path, node.children, full);
        var seen, wanted := TreeState(cfg, path, node.children, full, true), TreeState(cfg, path, node.children, full, false);
        CoversUnion(here, here, seen, wanted);
        if !AllWhole(cfg, path, node.children) {
          DifferInUnion(seen, wanted, here, here);
        }
      }
    }
  }

  lemma CoversItself(s: State)
    ensures Covers(s, s)
  {
  }

  lemma CoversNothing(s: State)
    requires s.marks == {}
    ensures Covers(s, EMPTY)
  {
  }

  /** What reading delivered has the wanted contents exactly when every stored file
      is whole, and all wanted directories; no others, when none was deleted
      between its record and its listing. */
  lemma {:induction false} SeenTree(cfg: Config, dir: string, nodes: seq<Node>, full: Contents)
    ensures var seen, wanted := TreeState(cfg, dir, nodes, full, true), TreeState(cfg, dir, nodes, full, false);
            && Covers(seen, wanted) && (AllListed(cfg, dir, nodes) ==> seen.dirs == wanted.dirs)
            && (if AllWhole(cfg, dir, nodes) then seen.files == wanted.files else Differ(seen, wanted))
    decreases nodes
  {
    hide NodeState, Whole, Listed, Differ, Covers;
    CoversItself(EMPTY);
    if |nodes| > 0 {
      SeenNode(cfg, dir, nodes[0], full);
      SeenTree(cfg, dir, nodes[1..], full);
      var seen, wanted := NodeState(cfg, dir, nodes[0], full, true), NodeState(cfg, dir, nodes[0], full, false);
      var seen', wanted' := TreeState(cfg, dir, nodes[1..], full, true), TreeState(cfg, dir, nodes[1..], full, false);
      CoversUnion(seen, wanted, seen', wanted');
      if !Whole(cfg, dir, nodes[0]) {
        DifferInUnion(seen, wanted, seen', wanted');
      } else if !AllWhole(cfg, dir, nodes[1..]) {
        DifferInUnion(seen', wanted', seen, wanted);
      }
    }
  }

  // --------------------------------------------------------- what entries and items hold

  /** The contents of the content entries. */
  function OwnPairs(entries: seq<M.Entry>, items: seq<Tar.Item>): set<(string, Bytes)>
    decreases |entries|
  {
    if |entries| == 0 then {}
    else if HasItem(entries[0]) && |items| > 0 then
      (if entries[0].HasContentInSet() then {(entries[0].path, items[0].content)} else {}) + OwnPairs(entries[1..], items[1..])
    else OwnPairs(entries[1..], items)
  }

  /** The files whose content is in the full backup. */
  function OldPairs(entries: seq<M.Entry>, full: Contents): set<(string, Bytes)> {
    set e | e in entries && e.kind == M.FileKind && !e.HasContentInSet() && e.path in full :: (e.path, full[e.path])
  }

  function FileMarks(entries: seq<M.Entry>): set<Mark> { set e | e in entries && e.kind == M.FileKind :: MarkOf(e) }

  function DirMarks(entries: seq<M.Entry>): set<Mark> { set e | e in entries && e.kind == M.DirKind :: MarkOf(e) }

  function Provided(entries: seq<M.Entry>, items: seq<Tar.Item>, full: Contents): State {
    State(OwnPairs(entries, items) + OldPairs(entries, full), FileMarks(entries), DirMarks(entries))
  }

  lemma OwnPairsUnfolds(entries: seq<M.Entry>, items: seq<Tar.Item>)
    requires |entries| > 0
    ensures OwnPairs(entries, items) ==
            if HasItem(entries[0]) && |items| > 0 then
              (if entries[0].HasContentInSet() then {(entries[0].path, items[0].content)} else {})
              + OwnPairs(entries[1..], items[1..])
            else OwnPairs(entries[1..], items)
  {
  }

  lemma {:induction false} OwnPairsConcat(cfg: Config, a: seq<M.Entry>, x: seq<Tar.Item>, b: seq<M.Entry>, y: seq<Tar.Item>, at: nat)
    requires Carried(cfg, a, x, at)
    ensures OwnPairs(a + b, x + y) == OwnPairs(a, x) + OwnPairs(b, y)
    decreases |a|
  {
    hide *;
    if |a| == 0 {
      CarriedNothing(cfg, x, at);
      OwnPairsOfNothing(x);
      assert a + b == b && x + y == y;
    } else {
      CarriedUnfolds(cfg, a, x, at);
      OwnPairsUnfolds(a, x);
      OwnPairsUnfolds(a + b, x + y);
      assert (a + b)[1..] == a[1..] + b;
      if HasItem(a[0]) {
        assert (x + y)[1..] == x[1..] + y;
        OwnPairsConcat(cfg, a[1..], x[1..], b, y, at + |Tar.ItemBytes(cfg.codec, x[0])|);
      } else {
        OwnPairsConcat(cfg, a[1..], x, b, y, at);
      }
    }
  }

  lemma OwnPairsOfNothing(items: seq<Tar.Item>)
    ensures OwnPairs([], items) == {}
  {
  }

  lemma OtherPairsConcat(a: seq<M.Entry>, b: seq<M.Entry>, full: Contents)
    ensures OldPairs(a + b, full) == OldPairs(a, full) + OldPairs(b, full)
    ensures FileMarks(a + b) == FileMarks(a) + FileMarks(b) && DirMarks(a + b) == DirMarks(a) + DirMarks(b)
  {
  }

  lemma ProvidedAppend(cfg: Config, p: Piece, q: Piece, full: Contents, at: nat)
    requires Carried(cfg, p.entries, p.items, at)
    ensures var pq := Append(p, q);
            Provided(pq.entries, pq.items, full) == Union(Provided(p.entries, p.items, full), Provided(q.entries, q.items, full))
  {
    hide OwnPairs, OldPairs, FileMarks, DirMarks, Carried, AddStats;
    OwnPairsConcat(cfg, p.entries, p.items, q.entries, q.items, at);
    OtherPairsConcat(p.entries, q.entries, full);
  }

  lemma ProvidedByOne(e: M.Entry, items: seq<Tar.Item>, full: Contents)
    requires |items| == if HasItem(e) then 1 else 0
    ensures Provided([e], items, full) ==
            if e.kind == M.DirKind then State({}, {}, {MarkOf(e)})
            else if e.HasContentInSet() then OneFile(e.path, items[0].content, MarkOf(e))
            else if e.kind == M.FileKind then State(if e.path in full then {(e.path, full[e.path])} else {}, {MarkOf(e)}, {})
            else EMPTY
  {
    assert [e][1..] == [];
    OwnPairsUnfolds([e], items);
    OldPairsOfOne(e, full);
    MarksOfOne(e);
    hide OldPairs, MarkOf, FileMarks, DirMarks;
  }

  lemma MarksOfOne(e: M.Entry)
    ensures FileMarks([e]) == if e.kind == M.FileKind then {MarkOf(e)} else {}
    ensures DirMarks([e]) == if e.kind == M.DirKind then {MarkOf(e)} else {}
  {
    assert e in [e];
  }

  lemma OldPairsOfOne(e: M.Entry, full: Contents)
    ensures OldPairs([e], full) ==
            if e.kind == M.FileKind && !e.HasContentInSet() && e.path in full then {(e.path, full[e.path])} else {}
  {
    assert e in [e];
  }

  lemma ProvidedByNone(full: Contents)
    ensures Provided([], [], full) == EMPTY
  {
  }

  // ----------------------------------------------------------------------------- the walk

  /** The full backup holds content for exactly the files of its manifest. */
  ghost predicate Backed(cfg: Config, full: Contents) {
    forall p :: p in full <==> cfg.BaseFile(p).Some?
  }

  /** Files without content here have the size and hash of the full backup's. */
  ghost predicate Refers(cfg: Config, entries: seq<M.Entry>) {
    forall e :: e in entries && e.kind == M.FileKind && !e.HasContentInSet() ==>
      var b := cfg.BaseFile(e.path); b.Some? && b.value.size == e.size && b.value.hash == e.hash
  }

  lemma RefersConcat(cfg: Config, p: Piece, q: Piece)
    requires Refers(cfg, p.entries) && Refers(cfg, q.entries)
    ensures Refers(cfg, Append(p, q).entries)
  {
    hide Config.BaseFile;
  }

  lemma RefersOne(cfg: Config, e: M.Entry)
    requires e.kind == M.FileKind && !e.HasContentInSet() ==>
               var b := cfg.BaseFile(e.path); b.Some? && b.value.size == e.size && b.value.hash == e.hash
    ensures Refers(cfg, [e]) && Refers(cfg, [])
  {
    hide Config.BaseFile;
  }

  lemma SkipFileRefers(cfg: Config, path: string, reason: string, isVoid: bool)
    requires cfg.Valid()
    ensures Refers(cfg, SkipFile(cfg, path, reason, isVoid).entries)
  {
    assert cfg.BaseFile(path).Some? ==> ValidBaseFile(path, cfg.BaseFile(path).value);
  }

  lemma SkipFileProvides(cfg: Config, path: string, reason: string, isVoid: bool, items: seq<Tar.Item>, full: Contents)
    requires cfg.Valid() && Backed(cfg, full) && |items| == if isVoid then 1 else 0
    ensures Provided(SkipFile(cfg, path, reason, isVoid).entries, items, full) == Older(cfg, path, full)
    ensures Refers(cfg, SkipFile(cfg, path, reason, isVoid).entries)
  {
    SkipFileRefers(cfg, path, reason, isVoid);
    var base := cfg.BaseFile(path);
    if base.Some? {
      assert ValidBaseFile(path, base.value);
      ProvidedByOne(FromBase(base.value, true, isVoid), items, full);
    } else {
      ProvidedByOne(M.SkippedEntry(path, reason, isVoid), items, full);
    }
    hide Provided, Config.BaseFile, Paths.ValidatePath, M.IsValidHash;
  }

  lemma StoredProvides(cfg: Config, path: string, f: Node, at: nat, full: Contents)
    requires f.File? && WriteFile(cfg, path, f, at).Stored?
    ensures var w := WriteFile(cfg, path, f, at);
            && IsReadable(f)
            && Provided([w.entry], [w.item], full) == OneFile(path, f.content[..f.opening.size], CurrentMark(path, f.opening.meta))
    ensures Refers(cfg, [WriteFile(cfg, path, f, at).entry])
  {
    RefersOne(cfg, WriteFile(cfg, path, f, at).entry);
    ProvidedByOne(WriteFile(cfg, path, f, at).entry, [WriteFile(cfg, path, f, at).item], full);
    hide Provided;
  }

  lemma UnmodifiedProvides(cfg: Config, path: string, f: Node, full: Contents)
    requires cfg.Valid() && f.File? && Backed(cfg, full) && IsUnmodified(cfg, path, f)
    requires IsSame(cfg.BaseFile(path).value, path, f, full)
    ensures Provided([FromBase(cfg.BaseFile(path).value, false, false)], [], full) ==
            OneFile(path, f.content, CurrentMark(path, f.stat.meta))
    ensures Refers(cfg, [FromBase(cfg.BaseFile(path).value, false, false)])
  {
    var b := cfg.BaseFile(path).value;
    assert ValidBaseFile(path, b);
    RefersOne(cfg, FromBase(b, false, false));
    ProvidedByOne(FromBase(b, false, false), [], full);
    hide Provided;
  }

  /** What addFile adds in each case, and what is wanted then. */
  lemma AddFileCases(cfg: Config, path: string, f: Node, at: nat, full: Contents)
    requires f.File? && AddFile(cfg, path, f, at).Done?
    ensures var p, w, wanted := AddFile(cfg, path, f, at).piece, WriteFile(cfg, path, f, at), FileState(cfg, path, f, full, true);
            if IsUnmodified(cfg, path, f) then
              p.entries == [FromBase(cfg.BaseFile(path).value, false, false)] && p.items == []
              && wanted == OneFile(path, f.content, CurrentMark(path, f.stat.meta))
            else if w.Stored? then
              p.entries == [w.entry] && p.items == [w.item]
              && (IsReadable(f) ==> wanted == OneFile(path, f.content[..f.opening.size], CurrentMark(path, f.opening.meta)))
            else if w.Broken? then
              && p.entries == SkipFile(cfg, path, w.reason, true).entries
              && p.items == [w.item] + SkipFile(cfg, path, w.reason, true).items
              && wanted == Older(cfg, path, full)
            else if w.fault.notExist then p.entries == [] && p.items == [] && wanted == EMPTY
            else
              && p.entries == SkipFile(cfg, path, w.fault.reason, false).entries
              && p.items == SkipFile(cfg, path, w.fault.reason, false).items
              && wanted == Older(cfg, path, full)
  {
    hide SkipFile, Older, FromBase, OneFile, MarkOf, CurrentMark, Config.BaseFile, Unchanged, Zeros, AddStats;
    if WriteFile(cfg, path, f, at).Broken? {
      var q := SkipFile(cfg, path, WriteFile(cfg, path, f, at).reason, true);
      assert [] + q.entries == q.entries;
    }
  }

  lemma AddFileProvides(cfg: Config, path: string, f: Node, at: nat, full: Contents)
    requires cfg.Valid() && f.File? && Backed(cfg, full) && AddFile(cfg, path, f, at).Done?
    requires IsUnmodified(cfg, path, f) ==> IsSame(cfg.BaseFile(path).value, path, f, full)
    ensures var p := AddFile(cfg, path, f, at).piece; Provided(p.entries, p.items, full) == FileState(cfg, path, f, full, true)
    ensures Refers(cfg, AddFile(cfg, path, f, at).piece.entries)
  {
    hide *;
    NoneRefers(cfg);
    AddFileCases(cfg, path, f, at, full);
    var w := WriteFile(cfg, path, f, at);
    if IsUnmodified(cfg, path, f) {
      UnmodifiedProvides(cfg, path, f, full);
    } else if w.Stored? {
      StoredProvides(cfg, path, f, at, full);
    } else if w.Broken? {
      SkipFileShape(cfg, path, w.reason, true);
      SkipFileProvides(cfg, path, w.reason, true, [w.item], full);
      assert [w.item] + [] == [w.item];
    } else if w.fault.notExist {
      ProvidedByNone(full);
    } else {
      SkipFileShape(cfg, path, w.fault.reason, false);
      SkipFileProvides(cfg, path, w.fault.reason, false, [], full);
    }
  }

  lemma UnreadProvides(cfg: Config, path: string, fault: Fault, full: Contents)
    requires Unread(cfg, path, fault).Done?
    ensures var p := Unread(cfg, path, fault).piece; Provided(p.entries, p.items, full) == EMPTY
    ensures fault.notExist || cfg.skipUnreadable
    ensures Refers(cfg, Unread(cfg, path, fault).piece.entries)
  {
    if fault.notExist {
      ProvidedByNone(full);
    } else {
      ProvidedByOne(M.SkippedEntry(path, fault.reason, false), [], full);
    }
    hide Provided;
  }

  lemma NoneRefers(cfg: Config)
    ensures Refers(cfg, [])
  {
  }

  lemma RecordedProvides(cfg: Config, path: string, meta: Meta, full: Contents)
    ensures var p := NOTHING.(entries := [DirEntry(path, meta)]);
            Provided(p.entries, p.items, full) == State({}, {}, {DirMark(path, meta)}) && Refers(cfg, p.entries)
  {
    ProvidedByOne(DirEntry(path, meta), [], full);
    hide Provided;
  }

  lemma EmptyProvides(cfg: Config, full: Contents)
    ensures Refers(cfg, NOTHING.entries) && Refers(cfg, Excluded().entries) && Refers(cfg, Vanished().entries)
    ensures Provided(NOTHING.entries, NOTHING.items, full) == EMPTY
    ensures Provided(Excluded().entries, Excluded().items, full) == EMPTY
    ensures Provided(Vanished().entries, Vanished().items, full) == EMPTY
  {
    ProvidedByNone(full);
    hide Provided;
  }

  lemma UnionEmpty(s: State)
    ensures Union(s, EMPTY) == s
  {
  }

  lemma {:induction false} VisitProvides(cfg: Config, dir: string, node: Node, at: nat, full: Contents)
    requires cfg.Valid() && Backed(cfg, full) && Faithful(cfg, dir, node, full) && Visit(cfg, dir, node, at).Done?
    ensures var p := Visit(cfg, dir, node, at).piece; Provided(p.entries, p.items, full) == NodeState(cfg, dir, node, full, true)
    ensures Refers(cfg, Visit(cfg, dir, node, at).piece.entries)
    decreases node, 0
  {
    hide AddFile, SkipFile, Unread, Config.Valid, Paths.ValidatePath, Paths.Child, VisitAll, Append, DirEntry, Provided,
      FileState, TreeState, Older, Union, CurrentMark, DirMark, Backed, AllFaithful, IsUnmodified, IsSame, Carried, Vanished,
      Excluded, Refers;
    var path, p := Paths.Child(dir, node.name), Visit(cfg, dir, node, at).piece;
    EmptyProvides(cfg, full);
    if cfg.isExcluded(path) || cfg.matches(path, node.Dir?) {
    } else if node.info.Some? {
      if !node.Dir? && !node.info.value.notExist && cfg.skipUnreadable {
        SkipFileShape(cfg, path, node.info.value.reason, false);
        SkipFileProvides(cfg, path, node.info.value.reason, false, [], full);
      } else {
        UnreadProvides(cfg, path, node.info.value, full);
      }
    } else if node.Special? {
    } else if node.File? {
      AddFileProvides(cfg, path, node, at, full);
    } else if node.stat.Unknown? {
      UnreadProvides(cfg, path, node.stat.fault, full);
    } else {
      var recorded := NOTHING.(entries := [DirEntry(path, node.stat.meta)]);
      RecordedProvides(cfg, path, node.stat.meta, full);
      RecordedCarried(cfg, path, node.stat.meta, at);
      if node.listing.None? {
        VisitAllProvides(cfg, path, node.children, at, full);
        ProvidedAppend(cfg, recorded, VisitAll(cfg, path, node.children, at).piece, full, at);
        RefersConcat(cfg, recorded, VisitAll(cfg, path, node.children, at).piece);
      } else if node.listing.value.notExist {
        ProvidedAppend(cfg, recorded, Vanished(), full, at);
        RefersConcat(cfg, recorded, Vanished());
        UnionEmpty(State({}, {}, {DirMark(path, node.stat.meta)}));
      } else {
        UnreadProvides(cfg, path, node.listing.value, full);
      }
    }
  }

  lemma RecordedCarried(cfg: Config, path: string, meta: Meta, at: nat)
    ensures Carried(cfg, [DirEntry(path, meta)], [], at)
  {
    assert [DirEntry(path, meta)][1..] == [];
  }

  /** What a run that is not aborted wrote down is the state of its source, as far
      as reading delivered it. */
  lemma {:induction false} VisitAllProvides(cfg: Config, dir: string, nodes: seq<Node>, at: nat, full: Contents)
    requires cfg.Valid() && Backed(cfg, full) && AllFaithful(cfg, dir, nodes, full) && VisitAll(cfg, dir, nodes, at).Done?
    ensures var p := VisitAll(cfg, dir, nodes, at).piece; Provided(p.entries, p.items, full) == TreeState(cfg, dir, nodes, full, true)
    ensures Refers(cfg, VisitAll(cfg, dir, nodes, at).piece.entries)
    decreases nodes
  {
    hide *;
    VisitAllUnfolds(cfg, dir, nodes, at);
    TreeStateUnfolds(cfg, dir, nodes, full);
    if |nodes| == 0 {
      EmptyProvides(cfg, full);
    } else {
      var first := Visit(cfg, dir, nodes[0], at).piece;
      var later := VisitAll(cfg, dir, nodes[1..], at + Size(cfg, first)).piece;
      VisitProvides(cfg, dir, nodes[0], at, full);
      VisitAllProvides(cfg, dir, nodes[1..], at + Size(cfg, first), full);
      VisitConsistent(cfg, dir, nodes[0], at);
      ConsistentUnfolds(cfg, first, at);
      ProvidedAppend(cfg, first, later, full, at);
      RefersConcat(cfg, first, later);
    }
  }

  // ------------------------------------------------------------ directories that are gone

  lemma {:induction false} OwnPairsAreOfEntries(entries: seq<M.Entry>, items: seq<Tar.Item>)
    ensures forall x :: x in OwnPairs(entries, items) ==> x.0 in EntryPaths(entries)
    decreases |entries|
  {
    if |entries| > 0 {
      OwnPairsAreOfEntries(entries[1..], items);
      if |items| > 0 {
        OwnPairsAreOfEntries(entries[1..], items[1..]);
      }
      assert entries == [entries[0]] + entries[1..];
    }
    hide HasItem;
  }

  lemma ProvidedPaths(entries: seq<M.Entry>, items: seq<Tar.Item>, full: Contents)
    ensures PathsOf(Provided(entries, items, full)) <= EntryPaths(entries)
  {
    OwnPairsAreOfEntries(entries, items);
    hide OwnPairs;
  }

  /** Entries with distinct paths stay distinct in each half, and the halves share no path. */
  lemma DistinctHalves(a: seq<M.Entry>, b: seq<M.Entry>)
    requires Distinct(a + b)
    ensures Distinct(a) && Distinct(b) && EntryPaths(a) !! EntryPaths(b)
  {
    var whole := a + b;
    forall i, j | 0 <= i < j < |a|
      ensures a[i].path != a[j].path
    {
      assert whole[i].path != whole[j].path;
    }
    forall i, j | 0 <= i < j < |b|
      ensures b[i].path != b[j].path
    {
      assert whole[|a| + i].path != whole[|a| + j].path;
    }
    forall x, y | x in a && y in b
      ensures x.path != y.path
    {
      var i :| 0 <= i < |a| && a[i] == x;
      var j :| 0 <= j < |b| && b[j] == y;
      assert whole[i].path != whole[|a| + j].path;
    }
  }

  /** Of two pieces without a common path, one that has a directory too much keeps it. */
  lemma LostInUnion(seen: State, wanted: State, a: seq<M.Entry>, seen': State, wanted': State, b: seq<M.Entry>)
    requires Covers(seen', wanted') && PathsOf(seen) <= EntryPaths(a) && PathsOf(seen') <= EntryPaths(b)
    requires EntryPaths(a) !! EntryPaths(b) && HasMore(seen, wanted)
    ensures HasMore(Union(seen, seen'), Union(wanted, wanted')) && HasMore(Union(seen', seen), Union(wanted', wanted))
  {
    MoreInUnion(seen, wanted, seen', wanted') by {
      hide HasMore, PathsOf, EntryPaths;
      assert PathsOf(wanted') <= PathsOf(seen');
    }
    hide *;
  }

  /** The paths that a visit provides are among those it recorded. */
  lemma VisitPaths(cfg: Config, dir: string, node: Node, at: nat, full: Contents)
    requires cfg.Valid() && Backed(cfg, full) && Faithful(cfg, dir, node, full) && Visit(cfg, dir, node, at).Done?
    ensures PathsOf(NodeState(cfg, dir, node, full, true)) <= EntryPaths(Visit(cfg, dir, node, at).piece.entries)
  {
    hide *;
    VisitProvides(cfg, dir, node, at, full);
    var p := Visit(cfg, dir, node, at).piece;
    ProvidedPaths(p.entries, p.items, full);
  }

  lemma VisitAllPaths(cfg: Config, dir: string, nodes: seq<Node>, at: nat, full: Contents)
    requires cfg.Valid() && Backed(cfg, full) && AllFaithful(cfg, dir, nodes, full) && VisitAll(cfg, dir, nodes, at).Done?
    ensures PathsOf(TreeState(cfg, dir, nodes, full, true)) <= EntryPaths(VisitAll(cfg, dir, nodes, at).piece.entries)
  {
    hide *;
    VisitAllProvides(cfg, dir, nodes, at, full);
    var p := VisitAll(cfg, dir, nodes, at).piece;
    ProvidedPaths(p.entries, p.items, full);
  }

  /** What becomes of a directory that is not listed: it is seen, and not wanted. */
  lemma LostHere(cfg: Config, dir: string, node: Node, at: nat, full: Contents)
    requires Visit(cfg, dir, node, at).Done? && Faithful(cfg, dir, node, full) && !Listed(cfg, dir, node)
    ensures node.Dir? && node.stat.Known?
    ensures var path := Paths.Child(dir, node.name);
            var here := State({}, {}, {DirMark(path, node.stat.meta)});
            if node.listing.Some? then
              NodeState(cfg, dir, node, full, true) == here && NodeState(cfg, dir, node, full, false) == EMPTY
            else
              && VisitAll(cfg, path, node.children, at).Done? && AllFaithful(cfg, path, node.children, full)
              && !AllListed(cfg, path, node.children)
              && Visit(cfg, dir, node, at).piece.entries ==
                 [DirEntry(path, node.stat.meta)] + VisitAll(cfg, path, node.children, at).piece.entries
              && forall seen :: NodeState(cfg, dir, node, full, seen) == Union(here, TreeState(cfg, path, node.children, full, seen))
  {
    hide VisitAll, TreeState, AllListed, AllFaithful, DirMark, DirEntry, Paths.ValidatePath, Paths.Child, Union, Older,
      AddStats, SkipFile, AddFile, FileState;
  }

  lemma {:induction false} LostNode(cfg: Config, dir: string, node: Node, at: nat, full: Contents)
    requires cfg.Valid() && Backed(cfg, full) && Faithful(cfg, dir, node, full) && Visit(cfg, dir, node, at).Done?
    requires Distinct(Visit(cfg, dir, node, at).piece.entries) && !Listed(cfg, dir, node)
    ensures HasMore(NodeState(cfg, dir, node, full, true), NodeState(cfg, dir, node, full, false))
    decreases node, 0
  {
    hide *;
    LostHere(cfg, dir, node, at, full);
    var path := Paths.Child(dir, node.name);
    var here := State({}, {}, {DirMark(path, node.stat.meta)});
    OneDir(here, path, node.stat.meta);
    if node.listing.None? {
      var below := VisitAll(cfg, path, node.children, at).piece.entries;
      DistinctHalves([DirEntry(path, node.stat.meta)], below);
      LostTree(cfg, path, node.children, at, full);
      VisitAllPaths(cfg, path, node.children, at, full);
      CoversItself(here);
      LostInUnion(TreeState(cfg, path, node.children, full, true), TreeState(cfg, path, node.children, full, false), below,
                  here, here, [DirEntry(path, node.stat.meta)]);
    }
  }

  lemma OneDir(here: State, path: string, meta: Meta)
    requires here == State({}, {}, {DirMark(path, meta)})
    ensures PathsOf(here) <= EntryPaths([DirEntry(path, meta)]) && HasMore(here, EMPTY)
  {
    assert DirEntry(path, meta) in [DirEntry(path, meta)];
    assert DirMark(path, meta) in here.dirs;
  }

  /** When a recorded directory was gone at its listing, the run has recorded a
      directory at a path where the wanted state has nothing. */
  lemma {:induction false} LostTree(cfg: Config, dir: string, nodes: seq<Node>, at: nat, full: Contents)
    requires cfg.Valid() && Backed(cfg, full) && AllFaithful(cfg, dir, nodes, full) && VisitAll(cfg, dir, nodes, at).Done?
    requires Distinct(VisitAll(cfg, dir, nodes, at).piece.entries) && !AllListed(cfg, dir, nodes)
    ensures HasMore(TreeState(cfg, dir, nodes, full, true), TreeState(cfg, dir, nodes, full, false))
    decreases nodes
  {
    hide *;
    NotAllListed(cfg, dir, nodes);
    VisitAllUnfolds(cfg, dir, nodes, at);
    TreeStateUnfolds(cfg, dir, nodes, full);
    var first := Visit(cfg, dir, nodes[0], at).piece;
    var at' := at + Size(cfg, first);
    var later := VisitAll(cfg, dir, nodes[1..], at').piece;
    AppendedEntries(first, later);
    DistinctHalves(first.entries, later.entries);
    VisitPaths(cfg, dir, nodes[0], at, full);
    VisitAllPaths(cfg, dir, nodes[1..], at', full);
    SeenNode(cfg, dir, nodes[0], full);
    SeenTree(cfg, dir, nodes[1..], full);
    var seen, wanted := NodeState(cfg, dir, nodes[0], full, true), NodeState(cfg, dir, nodes[0], full, false);
    var seen', wanted' := TreeState(cfg, dir, nodes[1..], full, true), TreeState(cfg, dir, nodes[1..], full, false);
    if !Listed(cfg, dir, nodes[0]) {
      LostNode(cfg, dir, nodes[0], at, full);
      LostInUnion(seen, wanted, first.entries, seen', wanted', later.entries);
    } else {
      LostTree(cfg, dir, nodes[1..], at', full);
      LostInUnion(seen', wanted', later.entries, seen, wanted, first.entries);
    }
  }

  lemma NotAllListed(cfg: Config, dir: string, nodes: seq<Node>)
    requires !AllListed(cfg, dir, nodes)
    ensures |nodes| > 0 && (!Listed(cfg, dir, nodes[0]) || !AllListed(cfg, dir, nodes[1..]))
  {
    hide Listed;
  }

  lemma AppendedEntries(p: Piece, q: Piece)
    ensures Append(p, q).entries == p.entries + q.entries
  {
    hide AddStats;
  }

  /** What a run has seen, against what is wanted: contents agree exactly when every
      stored file is whole, and directories exactly when none was gone at its
      listing. */
  ghost predicate Compares(cfg: Config, nodes: seq<Node>, full: Contents) {
    var seen, wanted := SeenAll(cfg, "", nodes, full), WantedAll(cfg, "", nodes, full);
    && Covers(seen, wanted)
    && (if AllWhole(cfg, "", nodes) then seen.files == wanted.files else Differ(seen, wanted))
    && (if AllListed(cfg, "", nodes) then seen.dirs == wanted.dirs else HasMore(seen, wanted))
  }

  lemma RunCompares(cfg: Config, nodes: seq<Node>, full: Contents)
    requires cfg.Valid() && Backed(cfg, full) && AllFaithful(cfg, "", nodes, full) && VisitAll(cfg, "", nodes, 0).Done?
    requires Distinct(VisitAll(cfg, "", nodes, 0).piece.entries)
    ensures Compares(cfg, nodes, full) && SeenAll(cfg, "", nodes, full) == TreeState(cfg, "", nodes, full, true)
  {
    SeenTree(cfg, "", nodes, full);
    if !AllListed(cfg, "", nodes) {
      LostTree(cfg, "", nodes, 0, full);
    }
    hide TreeState, AllWhole, AllListed, Differ, HasMore, Covers, VisitAll, AllFaithful, Backed, Config.Valid, Distinct;
  }

  lemma ConsistentUnfolds(cfg: Config, p: Piece, at: nat)
    requires Consistent(cfg, p, at)
    ensures Booked(p) && Carried(cfg, p.entries, p.items, at)
  {
  }

  lemma TreeStateUnfolds(cfg: Config, dir: string, nodes: seq<Node>, full: Contents)
    requires AllFaithful(cfg, dir, nodes, full)
    ensures |nodes| == 0 ==> TreeState(cfg, dir, nodes, full, true) == EMPTY
    ensures |nodes| > 0 ==> Faithful(cfg, dir, nodes[0], full) && AllFaithful(cfg, dir, nodes[1..], full)
    ensures |nodes| > 0 ==>
              forall seen :: TreeState(cfg, dir, nodes, full, seen) ==
                             Union(NodeState(cfg, dir, nodes[0], full, seen), TreeState(cfg, dir, nodes[1..], full, seen))
  {
    hide NodeState, Faithful;
  }

  // --------------------------------------------------------------------- feeding sections

  lemma {:induction false} TakeAllHead(decider: Decider, digest: Bytes -> string, items: seq<Tar.Item>, contents: Contents)
    requires |items| > 0
    ensures var first := Take(decider, digest, items[0], contents);
            TakeAll(decider, digest, items, contents) ==
            if first.None? then None else TakeAll(decider, digest, items[1..], first.value)
    decreases |items|
  {
    hide Take;
    var n := |items| - 1;
    if n > 0 {
      TakeAllHead(decider, digest, items[..n], contents);
      assert items[..n][1..] == items[1..][..n - 1];
    } else {
      assert items[1..] == [] && items[..0] == [];
    }
  }

  lemma TakeNone(decider: Decider, digest: Bytes -> string, contents: Contents)
    ensures TakeAll(decider, digest, [], contents) == Some(contents)
  {
  }

  /** The files and contents of a restore. */
  function Pairs(contents: Contents): set<(string, Bytes)> { set p | p in contents :: (p, contents[p]) }

  lemma PairsGrow(contents: Contents, p: string, content: Bytes)
    requires p !in contents
    ensures Pairs(contents[p := content]) == Pairs(contents) + {(p, content)}
  {
    var after, both := contents[p := content], Pairs(contents) + {(p, content)};
    forall x | x in Pairs(after)
      ensures x in both
    {
      if x.0 != p {
        assert x.0 in contents;
      }
    }
    forall x | x in both
      ensures x in Pairs(after)
    {
      assert x.0 in after;
    }
  }

  lemma PairsDetermine(a: Contents, b: Contents)
    requires Pairs(a) == Pairs(b)
    ensures a == b
  {
    forall p | p in a
      ensures p in b && b[p] == a[p]
    {
      assert (p, a[p]) in Pairs(a);
    }
    forall p | p in b
      ensures p in a
    {
      assert (p, b[p]) in Pairs(b);
    }
  }

  /** The own decider takes one described entry of a section. */
  lemma OwnTakes(cfg: Config, index: Index, e: M.Entry, item: Tar.Item, at: nat, contents: Contents)
    requires HasItem(e) && Describes(cfg, e, item, at) && e.path in index && index[e.path] == e
    requires e.HasContentInSet() ==> e.path !in contents
    ensures Take(OwnData(index), cfg.digest, item, contents) ==
            Some(if e.HasContentInSet() then contents[e.path := item.content] else contents)
  {
    hide Paths.ValidatePath;
    assert Tar.Complete(item) && item.name == e.path;
    assert OwnData(index).For(item.name) == if e.HasContentInSet() then Extract(e) else Pass;
  }

  /** Entries to feed: distinct, indexed, and none of their contents there yet. */
  ghost predicate Fresh(index: Index, entries: seq<M.Entry>, contents: Contents) {
    && Distinct(entries)
    && forall e :: e in entries ==>
         e.path in index && index[e.path] == e && (e.HasContentInSet() ==> e.path !in contents)
  }

  lemma FreshTail(index: Index, entries: seq<M.Entry>, contents: Contents, content: Bytes)
    requires |entries| > 0 && Fresh(index, entries, contents)
    ensures entries[0].path in index && index[entries[0].path] == entries[0]
    ensures entries[0].HasContentInSet() ==> entries[0].path !in contents
    ensures Fresh(index, entries[1..], contents) && Fresh(index, entries[1..], contents[entries[0].path := content])
  {
    assert entries[0] in entries;
    forall e | e in entries[1..]
      ensures e in entries && e.path != entries[0].path
    {
      var j :| 0 <= j < |entries[1..]| && entries[1..][j] == e;
      assert entries[j + 1] == e;
    }
    assert Distinct(entries[1..]);
  }

  lemma {:induction false} OwnFeeds(cfg: Config, index: Index, entries: seq<M.Entry>, items: seq<Tar.Item>, at: nat,
                                    contents: Contents)
    requires Carried(cfg, entries, items, at) && Fresh(index, entries, contents)
    ensures var r := TakeAll(OwnData(index), cfg.digest, items, contents);
            r.Some? && Pairs(r.value) == Pairs(contents) + OwnPairs(entries, items)
    decreases |entries|
  {
    hide *;
    if |entries| == 0 {
      CarriedNothing(cfg, items, at);
      OwnPairsOfNothing(items);
      TakeNone(OwnData(index), cfg.digest, contents);
    } else {
      CarriedUnfolds(cfg, entries, items, at);
      OwnPairsUnfolds(entries, items);
      var e := entries[0];
      if HasItem(e) {
        FreshTail(index, entries, contents, items[0].content);
        OwnTakes(cfg, index, e, items[0], at, contents);
        TakeAllHead(OwnData(index), cfg.digest, items, contents);
        var next := if e.HasContentInSet() then contents[e.path := items[0].content] else contents;
        OwnFeeds(cfg, index, entries[1..], items[1..], at + |Tar.ItemBytes(cfg.codec, items[0])|, next);
        if e.HasContentInSet() {
          PairsGrow(contents, e.path, items[0].content);
        }
      } else {
        FreshTail(index, entries, contents, []);
        ContentIsItem(e);
        OwnFeeds(cfg, index, entries[1..], items, at, contents);
      }
    }
  }

  lemma ContentIsItem(e: M.Entry)
    ensures e.HasContentInSet() ==> HasItem(e)
  {
  }

  /** The contents a section holds of the files that the target takes from the full backup. */
  function BasePairs(index: Index, entries: seq<M.Entry>, items: seq<Tar.Item>): set<(string, Bytes)> {
    set x | x in OwnPairs(entries, items) && BaseData(index).For(x.0).Extract?
  }

  /** What the target takes from these entries is recorded with their size and
      hash, and is not there yet. */
  ghost predicate Awaited(index: Index, entries: seq<M.Entry>, contents: Contents) {
    && Distinct(entries)
    && forall e :: e in entries && BaseData(index).For(e.path).Extract? ==>
         var x := index[e.path];
         && e.HasContentInSet() && x.path == e.path && x.size == e.size && x.hash == e.hash && e.path !in contents
  }

  lemma AwaitedTail(index: Index, entries: seq<M.Entry>, contents: Contents, content: Bytes)
    requires |entries| > 0 && Awaited(index, entries, contents)
    ensures BaseData(index).For(entries[0].path).Extract? ==>
              var e, x := entries[0], index[entries[0].path];
              && e.HasContentInSet() && x.path == e.path && x.size == e.size && x.hash == e.hash && e.path !in contents
    ensures Awaited(index, entries[1..], contents) && Awaited(index, entries[1..], contents[entries[0].path := content])
  {
    hide Decider.For;
    assert entries[0] in entries;
    forall e | e in entries[1..]
      ensures e in entries && e.path != entries[0].path
    {
      var j :| 0 <= j < |entries[1..]| && entries[1..][j] == e;
      assert entries[j + 1] == e;
    }
    assert Distinct(entries[1..]);
  }

  /** The base decider takes one described entry of the full backup, or passes it. */
  lemma BaseTakes(cfg: Config, index: Index, e: M.Entry, item: Tar.Item, at: nat, contents: Contents)
    requires HasItem(e) && Describes(cfg, e, item, at)
    requires BaseData(index).For(e.path).Extract? ==>
               var x := index[e.path];
               && e.HasContentInSet() && x.path == e.path && x.size == e.size && x.hash == e.hash && e.path !in contents
    ensures Take(BaseData(index), cfg.digest, item, contents) ==
            Some(if BaseData(index).For(e.path).Extract? then contents[e.path := item.content] else contents)
  {
    hide Paths.ValidatePath;
    assert Tar.Complete(item) && item.name == e.path;
    assert !BaseData(index).For(e.path).Extract? ==> BaseData(index).For(e.path) == Pass;
  }

  lemma BasePairsUnfolds(index: Index, entries: seq<M.Entry>, items: seq<Tar.Item>)
    requires |entries| > 0 && (HasItem(entries[0]) ==> |items| > 0)
    requires BaseData(index).For(entries[0].path).Extract? ==> entries[0].HasContentInSet()
    ensures BasePairs(index, entries, items) ==
            if !HasItem(entries[0]) then BasePairs(index, entries[1..], items)
            else
              (if BaseData(index).For(entries[0].path).Extract? then {(entries[0].path, items[0].content)} else {})
              + BasePairs(index, entries[1..], items[1..])
  {
    OwnPairsUnfolds(entries, items);
    hide OwnPairs, Decider.For;
  }

  lemma BasePairsOfNothing(index: Index, items: seq<Tar.Item>)
    ensures BasePairs(index, [], items) == {}
  {
  }

  lemma {:induction false} BaseFeeds(cfg: Config, index: Index, entries: seq<M.Entry>, items: seq<Tar.Item>, at: nat,
                                     contents: Contents)
    requires Carried(cfg, entries, items, at) && Awaited(index, entries, contents)
    ensures var r := TakeAll(BaseData(index), cfg.digest, items, contents);
            r.Some? && Pairs(r.value) == Pairs(contents) + BasePairs(index, entries, items)
    decreases |entries|
  {
    hide *;
    if |entries| == 0 {
      CarriedNothing(cfg, items, at);
      BasePairsOfNothing(index, items);
      TakeNone(BaseData(index), cfg.digest, contents);
    } else {
      CarriedUnfolds(cfg, entries, items, at);
      var e := entries[0];
      AwaitedTail(index, entries, contents, if HasItem(e) then items[0].content else []);
      BasePairsUnfolds(index, entries, items);
      if HasItem(e) {
        BaseTakes(cfg, index, e, items[0], at, contents);
        TakeAllHead(BaseData(index), cfg.digest, items, contents);
        var taken := BaseData(index).For(e.path).Extract?;
        var next := if taken then contents[e.path := items[0].content] else contents;
        BaseFeeds(cfg, index, entries[1..], items[1..], at + |Tar.ItemBytes(cfg.codec, items[0])|, next);
        if taken {
          PairsGrow(contents, e.path, items[0].content);
        }
      } else {
        BaseFeeds(cfg, index, entries[1..], items, at, contents);
      }
    }
  }

  // ------------------------------------------------------------------- facts of one run

  lemma {:induction false} CarriedWritable(cfg: Config, entries: seq<M.Entry>, items: seq<Tar.Item>, at: nat)
    requires Carried(cfg, entries, items, at)
    ensures forall i :: 0 <= i < |items| ==> Tar.Writable(items[i])
    decreases |entries|
  {
    hide Tar.Writable, Tar.ItemBytes;
    if |entries| > 0 {
      if HasItem(entries[0]) {
        CarriedWritable(cfg, entries[1..], items[1..], at + |Tar.ItemBytes(cfg.codec, items[0])|);
        assert forall i :: 0 < i < |items| ==> items[i] == items[1..][i - 1];
      } else {
        CarriedWritable(cfg, entries[1..], items, at);
      }
    }
  }

  lemma {:induction false} OwnPairsCover(cfg: Config, entries: seq<M.Entry>, items: seq<Tar.Item>, at: nat, e: M.Entry)
    requires Carried(cfg, entries, items, at) && e in entries && e.HasContentInSet()
    ensures exists x :: x in OwnPairs(entries, items) && x.0 == e.path
    decreases |entries|
  {
    hide *;
    CarriedUnfolds(cfg, entries, items, at);
    OwnPairsUnfolds(entries, items);
    ContentIsItem(e);
    if e == entries[0] {
      assert (e.path, items[0].content) in OwnPairs(entries, items);
    } else if HasItem(entries[0]) {
      assert e in entries[1..];
      OwnPairsCover(cfg, entries[1..], items[1..], at + |Tar.ItemBytes(cfg.codec, items[0])|, e);
      var x :| x in OwnPairs(entries[1..], items[1..]) && x.0 == e.path;
      assert x in OwnPairs(entries, items);
    } else {
      assert e in entries[1..];
      OwnPairsCover(cfg, entries[1..], items, at, e);
    }
  }

  /** The files of a manifest by path, as a differential run keeps them. */
  function BaseFiles(entries: seq<M.Entry>): map<string, M.Entry> {
    map p | p in IndexOf(entries) && IndexOf(entries)[p].kind == M.FileKind :: IndexOf(entries)[p]
  }

  lemma BaseIsValid(fold: char -> char, entries: seq<M.Entry>, p: string)
    requires M.ValidEntries(fold, entries, false) && p in BaseFiles(entries)
    ensures ValidBaseFile(p, BaseFiles(entries)[p])
  {
    ValidIsDistinct(fold, entries, false);
    IndexHolds(entries);
    EntryIsLegal(fold, entries, false, IndexOf(entries)[p]);
    hide IndexOf, M.ValidEntries, Paths.ValidatePath, M.ValidateEntry;
  }

  lemma {:induction false} NoBaseNode(cfg: Config, dir: string, node: Node, full: Contents)
    requires cfg.base.None?
    ensures Faithful(cfg, dir, node, full)
    decreases node, 0
  {
    if node.Dir? {
      NoBaseFaithful(cfg, Paths.Child(dir, node.name), node.children, full);
    }
    hide AllFaithful;
  }

  lemma {:induction false} NoBaseFaithful(cfg: Config, dir: string, nodes: seq<Node>, full: Contents)
    requires cfg.base.None?
    ensures AllFaithful(cfg, dir, nodes, full)
    decreases nodes
  {
    hide Faithful;
    if |nodes| > 0 {
      NoBaseNode(cfg, dir, nodes[0], full);
      NoBaseFaithful(cfg, dir, nodes[1..], full);
    }
  }

  // ------------------------------------------------------------------------- the theorems

  /** A run, and the section with its data as a restore reads it. */
  function Section(cfg: Config, p: Piece): Tar.Section { Tar.Parse(cfg.codec, Tar.Archive(cfg.codec, p.items)) }

  lemma SectionIs(cfg: Config, p: Piece)
    requires cfg.Valid() && Carried(cfg, p.entries, p.items, 0)
    ensures Section(cfg, p) == Tar.Section(p.items, true)
  {
    CarriedWritable(cfg, p.entries, p.items, 0);
    Tar.ParseArchive(cfg.codec, p.items);
    hide Tar.Parse, Tar.Archive, Tar.Writable, Carried;
  }

  lemma FeedOne(digest: Bytes -> string, d: Decider, items: seq<Tar.Item>)
    ensures FeedAll(digest, [(d, Tar.Section(items, true))]) == TakeAll(d, digest, items, map[])
  {
    var sections := [(d, Tar.Section(items, true))];
    assert sections[..0] == [];
    assert FeedAll(digest, []) == Some(map[]);
    hide TakeAll;
  }

  lemma FeedTwo(digest: Bytes -> string, d0: Decider, items0: seq<Tar.Item>, d1: Decider, items1: seq<Tar.Item>)
    ensures var first := TakeAll(d0, digest, items0, map[]);
            FeedAll(digest, [(d0, Tar.Section(items0, true)), (d1, Tar.Section(items1, true))]) ==
            if first.None? then None else TakeAll(d1, digest, items1, first.value)
  {
    var sections := [(d0, Tar.Section(items0, true)), (d1, Tar.Section(items1, true))];
    assert sections[..1] == [(d0, Tar.Section(items0, true))];
    FeedOne(digest, d0, items0);
    hide TakeAll;
  }

  lemma FreshForOwn(fold: char -> char, entries: seq<M.Entry>, isDiff: bool, contents: Contents)
    requires M.ValidEntries(fold, entries, isDiff)
    requires forall p :: p in contents ==> !OwnData(IndexOf(entries)).For(p).Extract?
    ensures Fresh(IndexOf(entries), entries, contents)
  {
    ValidIsDistinct(fold, entries, isDiff);
    IndexHolds(entries);
    hide IndexOf, M.ValidEntries;
  }

  lemma NoPairs()
    ensures Pairs(map[]) == {}
  {
  }

  /** Contents and directories of what was seen are those wanted exactly when every
      file is whole and every directory was listed. */
  lemma ComparedIs(cfg: Config, nodes: seq<Node>, full: Contents, c: Contents)
    requires Compares(cfg, nodes, full) && Pairs(c) == SeenAll(cfg, "", nodes, full).files
    ensures var seen, wanted := SeenAll(cfg, "", nodes, full), WantedAll(cfg, "", nodes, full);
            && seen.marks == wanted.marks
            && (Pairs(c) == wanted.files <==> AllWhole(cfg, "", nodes))
            && (seen.dirs == wanted.dirs <==> AllListed(cfg, "", nodes))
  {
    hide WantedAll, SeenAll, AllWhole, AllListed;
    var seen, wanted := SeenAll(cfg, "", nodes, full), WantedAll(cfg, "", nodes, full);
    if !AllWhole(cfg, "", nodes) {
      var p, x, y :| x != y && (p, x) in seen.files && (p, y) in wanted.files;
      assert (p, x) in Pairs(c) && (p, y) !in Pairs(c);
    }
    if !AllListed(cfg, "", nodes) {
      var m :| m in seen.dirs && m.path !in PathsOf(wanted);
      assert m !in wanted.dirs;
    }
  }

  /** A full backup restores what reading its source delivered, with all marks and
      directories; the contents are those of its source exactly when every stored
      file is whole, the directories exactly when none was gone at its listing. */
  lemma FullRestores(fold: char -> char, cfg: Config, nodes: seq<Node>)
    requires cfg.Valid() && cfg.base.None? && VisitAll(cfg, "", nodes, 0).Done?
    requires M.ValidEntries(fold, VisitAll(cfg, "", nodes, 0).piece.entries, false)
    ensures var p, wanted := VisitAll(cfg, "", nodes, 0).piece, WantedAll(cfg, "", nodes, map[]);
            var r := FeedAll(cfg.digest, [(OwnData(IndexOf(p.entries)), Section(cfg, p))]);
            && r.Some? && Pairs(r.value) == SeenAll(cfg, "", nodes, map[]).files
            && (Pairs(r.value) == wanted.files <==> AllWhole(cfg, "", nodes))
            && Pairs(r.value) == OwnPairs(p.entries, p.items)
            && FileMarks(p.entries) == wanted.marks && DirMarks(p.entries) == SeenAll(cfg, "", nodes, map[]).dirs
            && (DirMarks(p.entries) == wanted.dirs <==> AllListed(cfg, "", nodes))
            && MissingFrom(p.entries, false, r.value.Keys) == []
    ensures Compares(cfg, nodes, map[])
  {
    hide *;
    var p := VisitAll(cfg, "", nodes, 0).piece;
    BackedByNothing(cfg);
    NoBaseFaithful(cfg, "", nodes, map[]);
    VisitAllProvides(cfg, "", nodes, 0, map[]);
    VisitAllConsistent(cfg, "", nodes, 0);
    ConsistentUnfolds(cfg, p, 0);
    SectionIs(cfg, p);
    FeedOne(cfg.digest, OwnData(IndexOf(p.entries)), p.items);
    FreshForOwn(fold, p.entries, false, map[]);
    OwnFeeds(cfg, IndexOf(p.entries), p.entries, p.items, 0, map[]);
    NoPairs();
    ProvidedUnfolds(p.entries, p.items, map[]);
    NothingOld(p.entries);
    var c := FeedAll(cfg.digest, [(OwnData(IndexOf(p.entries)), Section(cfg, p))]).value;
    ValidIsDistinct(fold, p.entries, false);
    RunCompares(cfg, nodes, map[]);
    ComparedIs(cfg, nodes, map[], c);
    WholeFull(cfg, fold, p, c);
  }

  lemma BackedByNothing(cfg: Config)
    requires cfg.base.None?
    ensures Backed(cfg, map[])
  {
  }

  lemma ProvidedUnfolds(entries: seq<M.Entry>, items: seq<Tar.Item>, full: Contents)
    ensures Provided(entries, items, full) == State(OwnPairs(entries, items) + OldPairs(entries, full), FileMarks(entries), DirMarks(entries))
  {
  }

  lemma NothingOld(entries: seq<M.Entry>)
    ensures OldPairs(entries, map[]) == {}
  {
  }

  lemma InPairs(c: Contents, p: string)
    requires exists x :: x in Pairs(c) && x.0 == p
    ensures p in c
  {
  }

  lemma WholeFull(cfg: Config, fold: char -> char, p: Piece, c: Contents)
    requires Carried(cfg, p.entries, p.items, 0) && M.ValidEntries(fold, p.entries, false)
    requires Pairs(c) == OwnPairs(p.entries, p.items)
    ensures MissingFrom(p.entries, false, c.Keys) == []
    ensures forall e :: e in p.entries && e.kind == M.FileKind ==> e.path in c
  {
    hide *;
    NothingMissing(p.entries, false, c.Keys);
    forall e | e in p.entries && e.kind == M.FileKind
      ensures e.path in c
    {
      FullFileHasContent(fold, p.entries, e);
      OwnPairsCover(cfg, p.entries, p.items, 0, e);
      InPairs(c, e.path);
    }
  }

  lemma FullFileHasContent(fold: char -> char, entries: seq<M.Entry>, e: M.Entry)
    requires M.ValidEntries(fold, entries, false) && e in entries && e.kind == M.FileKind
    ensures e.HasContentInSet()
  {
    EntryIsLegal(fold, entries, false, e);
    hide M.ValidEntries, Paths.ValidatePath, M.IsValidHash;
  }

  lemma DiffFilePlaces(fold: char -> char, entries: seq<M.Entry>, e: M.Entry)
    requires M.ValidEntries(fold, entries, true) && e in entries && e.kind == M.FileKind
    ensures e.origin == M.FullOrigin <==> !e.HasContentInSet()
    ensures OwnData(IndexOf(entries)).For(e.path).Extract? <==> e.HasContentInSet()
    ensures BaseData(IndexOf(entries)).For(e.path).Extract? <==> !e.HasContentInSet()
    ensures e.path in IndexOf(entries) && IndexOf(entries)[e.path] == e
  {
    ValidIsDistinct(fold, entries, true);
    IndexHolds(entries);
    EntryIsLegal(fold, entries, true, e);
    hide M.ValidEntries, Paths.ValidatePath, M.IsValidHash, IndexOf;
  }

  lemma BackedByFull(fold: char -> char, cfg0: Config, p0: Piece, cfg1: Config, full: Contents)
    requires Carried(cfg0, p0.entries, p0.items, 0) && M.ValidEntries(fold, p0.entries, false)
    requires cfg1.base == Some(BaseFiles(p0.entries))
    requires forall p :: p in full ==> OwnData(IndexOf(p0.entries)).For(p).Extract?
    requires forall e :: e in p0.entries && e.kind == M.FileKind ==> e.path in full
    ensures Backed(cfg1, full)
  {
    ValidIsDistinct(fold, p0.entries, false);
    IndexHolds(p0.entries);
    hide IndexOf, Carried, M.ValidEntries;
  }

  lemma AwaitedForBase(fold: char -> char, cfg1: Config, entries0: seq<M.Entry>, entries1: seq<M.Entry>, contents: Contents)
    requires M.ValidEntries(fold, entries0, false) && M.ValidEntries(fold, entries1, true)
    requires cfg1.base == Some(BaseFiles(entries0)) && Refers(cfg1, entries1)
    requires forall p :: p in contents ==> !BaseData(IndexOf(entries1)).For(p).Extract?
    ensures Awaited(IndexOf(entries1), entries0, contents)
  {
    var index0, index1 := IndexOf(entries0), IndexOf(entries1);
    ValidIsDistinct(fold, entries0, false);
    ValidIsDistinct(fold, entries1, true);
    IndexHolds(entries0);
    IndexHolds(entries1);
    forall e | e in entries0 && BaseData(index1).For(e.path).Extract?
      ensures var x := index1[e.path];
              && e.HasContentInSet() && x.path == e.path && x.size == e.size && x.hash == e.hash && e.path !in contents
    {
      var x := index1[e.path];
      DiffFilePlaces(fold, entries1, x);
      assert x in entries1 && !x.HasContentInSet();
      assert e == index0[e.path];
      FullFileHasContent(fold, entries0, e);
    }
    hide IndexOf, M.ValidEntries;
  }

  lemma BasePairsAreOld(fold: char -> char, entries0: seq<M.Entry>, items0: seq<Tar.Item>, entries1: seq<M.Entry>, full: Contents)
    requires M.ValidEntries(fold, entries1, true) && Pairs(full) == OwnPairs(entries0, items0)
    ensures BasePairs(IndexOf(entries1), entries0, items0) == OldPairs(entries1, full)
  {
    var index := IndexOf(entries1);
    ValidIsDistinct(fold, entries1, true);
    IndexHolds(entries1);
    hide IndexOf, M.ValidEntries, OwnPairs;
    forall x | x in BasePairs(index, entries0, items0)
      ensures x in OldPairs(entries1, full)
    {
      assert x in Pairs(full);
      DiffFilePlaces(fold, entries1, index[x.0]);
    }
    forall x | x in OldPairs(entries1, full)
      ensures x in BasePairs(index, entries0, items0)
    {
      var e :| e in entries1 && e.kind == M.FileKind && !e.HasContentInSet() && e.path in full && x == (e.path, full[e.path]);
      DiffFilePlaces(fold, entries1, e);
      assert x in Pairs(full);
    }
  }

  lemma WholeDiff(cfg: Config, fold: char -> char, p: Piece, full: Contents, c: Contents)
    requires Carried(cfg, p.entries, p.items, 0) && M.ValidEntries(fold, p.entries, true)
    requires Refers(cfg, p.entries) && Backed(cfg, full)
    requires Pairs(c) == OwnPairs(p.entries, p.items) + OldPairs(p.entries, full)
    ensures MissingFrom(p.entries, false, c.Keys) == []
  {
    hide *;
    NothingMissing(p.entries, false, c.Keys);
    forall e | e in p.entries && e.kind == M.FileKind
      ensures e.path in c
    {
      if e.HasContentInSet() {
        OwnPairsCover(cfg, p.entries, p.items, 0, e);
      } else {
        OldPairsCover(cfg, p.entries, full, e);
      }
      InPairs(c, e.path);
    }
  }

  lemma OldPairsCover(cfg: Config, entries: seq<M.Entry>, full: Contents, e: M.Entry)
    requires Refers(cfg, entries) && Backed(cfg, full) && e in entries && e.kind == M.FileKind && !e.HasContentInSet()
    ensures exists x :: x in OldPairs(entries, full) && x.0 == e.path
  {
    hide Config.BaseFile;
    assert (e.path, full[e.path]) in OldPairs(entries, full);
  }

  /** The contents that a restore of a full backup gives. */
  function RestoredFrom(cfg: Config, p: Piece): Option<Contents> {
    FeedAll(cfg.digest, [(OwnData(IndexOf(p.entries)), Section(cfg, p))])
  }

  lemma RestoredFromUnfolds(cfg: Config, p: Piece)
    ensures RestoredFrom(cfg, p) == FeedAll(cfg.digest, [(OwnData(IndexOf(p.entries)), Section(cfg, p))])
  {
    hide FeedAll, Section, IndexOf;
  }

  /** The hypotheses about a full backup, what restoring it gives, and a
      differential of a later state based on it. */
  ghost predicate IsChain(fold: char -> char, cfg0: Config, nodes0: seq<Node>, full: Contents, cfg1: Config, nodes1: seq<Node>) {
    && cfg0.Valid() && cfg0.base.None? && VisitAll(cfg0, "", nodes0, 0).Done?
    && M.ValidEntries(fold, VisitAll(cfg0, "", nodes0, 0).piece.entries, false)
    && RestoredFrom(cfg0, VisitAll(cfg0, "", nodes0, 0).piece) == Some(full)
    && cfg1.codec.Valid() && cfg1.digest == cfg0.digest
    && cfg1.base == Some(BaseFiles(VisitAll(cfg0, "", nodes0, 0).piece.entries))
    && VisitAll(cfg1, "", nodes1, 0).Done?
    && M.ValidEntries(fold, VisitAll(cfg1, "", nodes1, 0).piece.entries, true)
    && AllFaithful(cfg1, "", nodes1, full)
  }

  /** What a differential needs of its two runs. */
  lemma ChainFacts(fold: char -> char, cfg0: Config, nodes0: seq<Node>, full: Contents, cfg1: Config, nodes1: seq<Node>)
    requires IsChain(fold, cfg0, nodes0, full, cfg1, nodes1)
    ensures var p0, p1 := VisitAll(cfg0, "", nodes0, 0).piece, VisitAll(cfg1, "", nodes1, 0).piece;
            && cfg1.Valid() && Carried(cfg0, p0.entries, p0.items, 0) && Carried(cfg1, p1.entries, p1.items, 0)
            && Pairs(full) == OwnPairs(p0.entries, p0.items)
            && Backed(cfg1, full) && Refers(cfg1, p1.entries)
            && Provided(p1.entries, p1.items, full) == SeenAll(cfg1, "", nodes1, full) && Compares(cfg1, nodes1, full)
  {
    hide *;
    ChainIs(fold, cfg0, nodes0, full, cfg1, nodes1);
    var p0, p1 := VisitAll(cfg0, "", nodes0, 0).piece, VisitAll(cfg1, "", nodes1, 0).piece;
    BaseConfigIsValid(fold, cfg0, cfg1, p0.entries);
    VisitAllConsistent(cfg0, "", nodes0, 0);
    ConsistentUnfolds(cfg0, p0, 0);
    VisitAllConsistent(cfg1, "", nodes1, 0);
    ConsistentUnfolds(cfg1, p1, 0);
    FullRestores(fold, cfg0, nodes0);
    RestoredFromUnfolds(cfg0, p0);
    SectionIs(cfg0, p0);
    FeedOne(cfg0.digest, OwnData(IndexOf(p0.entries)), p0.items);
    FeedOnlyAdds(OwnData(IndexOf(p0.entries)), cfg0.digest, p0.items, map[]);
    WholeFull(cfg0, fold, p0, full);
    BackedByFull(fold, cfg0, p0, cfg1, full);
    VisitAllProvides(cfg1, "", nodes1, 0, full);
    ValidIsDistinct(fold, p1.entries, true);
    RunCompares(cfg1, nodes1, full);
  }

  lemma ChainIs(fold: char -> char, cfg0: Config, nodes0: seq<Node>, full: Contents, cfg1: Config, nodes1: seq<Node>)
    ensures IsChain(fold, cfg0, nodes0, full, cfg1, nodes1) <==>
            && cfg0.Valid() && cfg0.base.None? && VisitAll(cfg0, "", nodes0, 0).Done?
            && M.ValidEntries(fold, VisitAll(cfg0, "", nodes0, 0).piece.entries, false)
            && RestoredFrom(cfg0, VisitAll(cfg0, "", nodes0, 0).piece) == Some(full)
            && cfg1.codec.Valid() && cfg1.digest == cfg0.digest
            && cfg1.base == Some(BaseFiles(VisitAll(cfg0, "", nodes0, 0).piece.entries))
            && VisitAll(cfg1, "", nodes1, 0).Done?
            && M.ValidEntries(fold, VisitAll(cfg1, "", nodes1, 0).piece.entries, true)
            && AllFaithful(cfg1, "", nodes1, full)
  {
    hide VisitAll, M.ValidEntries, RestoredFrom, Config.Valid, AllFaithful, BaseFiles, Tar.Codec.Valid;
  }

  lemma BaseConfigIsValid(fold: char -> char, cfg0: Config, cfg1: Config, entries0: seq<M.Entry>)
    requires cfg0.Valid() && cfg1.codec.Valid() && cfg1.digest == cfg0.digest
    requires M.ValidEntries(fold, entries0, false) && cfg1.base == Some(BaseFiles(entries0))
    ensures cfg1.Valid()
  {
    forall p | p in BaseFiles(entries0)
      ensures ValidBaseFile(p, BaseFiles(entries0)[p])
    {
      BaseIsValid(fold, entries0, p);
    }
    hide BaseFiles, ValidBaseFile, M.ValidEntries, M.IsValidHash, Tar.Codec.Valid;
  }

  /** Restoring a differential from the full backup's section and its own, in
      either order, yields what reading the later source delivered, and that is
      exactly the later state if and only if every stored file is whole and no
      recorded directory was gone when it was listed: new, changed and unmodified
      files with their current content, times and attributes, files that could not
      be read with those of the full backup, no others, the directories of the
      later state, and no file that Finish misses. */
  lemma DifferentialRestores(fold: char -> char, cfg0: Config, nodes0: seq<Node>, full: Contents, cfg1: Config, nodes1: seq<Node>)
    requires IsChain(fold, cfg0, nodes0, full, cfg1, nodes1)
    ensures var p0, p1 := VisitAll(cfg0, "", nodes0, 0).piece, VisitAll(cfg1, "", nodes1, 0).piece;
            var index, wanted := IndexOf(p1.entries), WantedAll(cfg1, "", nodes1, full);
            var fromBase, fromOwn := (BaseData(index), Section(cfg0, p0)), (OwnData(index), Section(cfg1, p1));
            var r, s := FeedAll(cfg1.digest, [fromBase, fromOwn]), FeedAll(cfg1.digest, [fromOwn, fromBase]);
            && r.Some? && s == r && Pairs(r.value) == SeenAll(cfg1, "", nodes1, full).files
            && (Pairs(r.value) == wanted.files <==> AllWhole(cfg1, "", nodes1))
            && FileMarks(p1.entries) == wanted.marks && DirMarks(p1.entries) == SeenAll(cfg1, "", nodes1, full).dirs
            && (DirMarks(p1.entries) == wanted.dirs <==> AllListed(cfg1, "", nodes1))
            && MissingFrom(p1.entries, false, r.value.Keys) == []
    ensures Compares(cfg1, nodes1, full)
  {
    hide *;
    ChainIs(fold, cfg0, nodes0, full, cfg1, nodes1);
    ChainFacts(fold, cfg0, nodes0, full, cfg1, nodes1);
    var p0, p1 := VisitAll(cfg0, "", nodes0, 0).piece, VisitAll(cfg1, "", nodes1, 0).piece;
    var index, digest := IndexOf(p1.entries), cfg1.digest;
    SectionIs(cfg0, p0);
    SectionIs(cfg1, p1);
    FeedTwo(digest, BaseData(index), p0.items, OwnData(index), p1.items);
    FeedTwo(digest, OwnData(index), p1.items, BaseData(index), p0.items);
    RunsUnfold(fold, cfg0, p0, cfg1, p1, full);
    BaseThenOwn(fold, cfg0, p0, cfg1, p1, full);
    OwnThenBase(fold, cfg0, p0, cfg1, p1, full);
    ProvidedUnfolds(p1.entries, p1.items, full);
    var r := TakeAll(OwnData(index), digest, p1.items, TakeAll(BaseData(index), digest, p0.items, map[]).value);
    var s := TakeAll(BaseData(index), digest, p0.items, TakeAll(OwnData(index), digest, p1.items, map[]).value);
    PairsDetermine(r.value, s.value);
    WholeDiff(cfg1, fold, p1, full, r.value);
    ComparedIs(cfg1, nodes1, full, r.value);
  }

  /** The decided runs behind the theorem. */
  ghost predicate AreRuns(fold: char -> char, cfg0: Config, p0: Piece, cfg1: Config, p1: Piece, full: Contents) {
    && Carried(cfg0, p0.entries, p0.items, 0) && Carried(cfg1, p1.entries, p1.items, 0)
    && M.ValidEntries(fold, p0.entries, false) && M.ValidEntries(fold, p1.entries, true)
    && cfg1.base == Some(BaseFiles(p0.entries)) && cfg1.digest == cfg0.digest
    && Pairs(full) == OwnPairs(p0.entries, p0.items) && Refers(cfg1, p1.entries)
  }

  lemma BaseThenOwn(fold: char -> char, cfg0: Config, p0: Piece, cfg1: Config, p1: Piece, full: Contents)
    requires AreRuns(fold, cfg0, p0, cfg1, p1, full)
    ensures var index := IndexOf(p1.entries);
            var first := TakeAll(BaseData(index), cfg1.digest, p0.items, map[]);
            && first.Some?
            && var r := TakeAll(OwnData(index), cfg1.digest, p1.items, first.value);
               r.Some? && Pairs(r.value) == OwnPairs(p1.entries, p1.items) + OldPairs(p1.entries, full)
  {
    hide *;
    RunsUnfold(fold, cfg0, p0, cfg1, p1, full);
    var index := IndexOf(p1.entries);
    AwaitedForBase(fold, cfg1, p0.entries, p1.entries, map[]);
    BaseFeeds(cfg0, index, p0.entries, p0.items, 0, map[]);
    FeedOnlyAdds(BaseData(index), cfg1.digest, p0.items, map[]);
    var first := TakeAll(BaseData(index), cfg1.digest, p0.items, map[]).value;
    DecidersExclude(fold, p1.entries);
    FreshForOwn(fold, p1.entries, true, first);
    OwnFeeds(cfg1, index, p1.entries, p1.items, 0, first);
    BasePairsAreOld(fold, p0.entries, p0.items, p1.entries, full);
    NoPairs();
  }

  lemma OwnThenBase(fold: char -> char, cfg0: Config, p0: Piece, cfg1: Config, p1: Piece, full: Contents)
    requires AreRuns(fold, cfg0, p0, cfg1, p1, full)
    ensures var index := IndexOf(p1.entries);
            var first := TakeAll(OwnData(index), cfg1.digest, p1.items, map[]);
            && first.Some?
            && var r := TakeAll(BaseData(index), cfg1.digest, p0.items, first.value);
               r.Some? && Pairs(r.value) == OwnPairs(p1.entries, p1.items) + OldPairs(p1.entries, full)
  {
    hide *;
    RunsUnfold(fold, cfg0, p0, cfg1, p1, full);
    var index := IndexOf(p1.entries);
    FreshForOwn(fold, p1.entries, true, map[]);
    OwnFeeds(cfg1, index, p1.entries, p1.items, 0, map[]);
    FeedOnlyAdds(OwnData(index), cfg1.digest, p1.items, map[]);
    var first := TakeAll(OwnData(index), cfg1.digest, p1.items, map[]).value;
    DecidersExclude(fold, p1.entries);
    AwaitedForBase(fold, cfg1, p0.entries, p1.entries, first);
    BaseFeeds(cfg0, index, p0.entries, p0.items, 0, first);
    BasePairsAreOld(fold, p0.entries, p0.items, p1.entries, full);
    NoPairs();
  }

  lemma RunsUnfold(fold: char -> char, cfg0: Config, p0: Piece, cfg1: Config, p1: Piece, full: Contents)
    ensures AreRuns(fold, cfg0, p0, cfg1, p1, full) <==>
            && Carried(cfg0, p0.entries, p0.items, 0) && Carried(cfg1, p1.entries, p1.items, 0)
            && M.ValidEntries(fold, p0.entries, false) && M.ValidEntries(fold, p1.entries, true)
            && cfg1.base == Some(BaseFiles(p0.entries)) && cfg1.digest == cfg0.digest
            && Pairs(full) == OwnPairs(p0.entries, p0.items) && Refers(cfg1, p1.entries)
  {
  }

  lemma DecidersExclude(fold: char -> char, entries: seq<M.Entry>)
    requires M.ValidEntries(fold, entries, true)
    ensures forall p :: !(OwnData(IndexOf(entries)).For(p).Extract? && BaseData(IndexOf(entries)).For(p).Extract?)
  {
    forall p
      ensures !(OwnData(IndexOf(entries)).For(p).Extract? && BaseData(IndexOf(entries)).For(p).Extract?)
    {
      DecidersPartition(fold, entries, p);
    }
    hide IndexOf, Decider.For, M.ValidEntries;
  }
}
