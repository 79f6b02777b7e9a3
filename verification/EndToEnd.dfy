/** From a source directory to part files and back into a destination. */
module EndToEnd {
  import opened Wrappers
  import opened Binary
  import opened Walk
  import opened WalkLaws
  import opened FileSystem
  import opened Decide
  import opened Destination
  import opened Restorer
  import R = Restorer
  import opened Differential
  import C = Container
  import H = SetHeader
  import L = ManifestCodec
  import M = Manifest
  import P = Split
  import Tar

  // -------------------------------------------------------------------------- part files

  /** No complete read of the stream succeeds, under any keys and any number of parts. */
  ghost predicate NeverReads(f: C.Format, s: Bytes) {
    |s| < TWO_TO_THE_63 && forall keys, count: int :: C.ReadSet(f, keys, s, count).None?
  }

  /** A set that was written and distributed over part files, of a size that an
      int64 holds and in as many parts as the trailer has room for. */
  ghost predicate IsSplitSet(f: C.Format, h: H.Header, master: Bytes, splitSize: nat, data: Bytes, man: Bytes, parts: seq<Bytes>) {
    && f.Valid() && splitSize > 0 && C.SetBytes(f, h, master, splitSize, data, man).Some?
    && |C.SetBytes(f, h, master, splitSize, data, man).value| < TWO_TO_THE_63
    && C.SetTrailer(f, h, master, splitSize, data, man).partCount < TWO_TO_THE_32
    && P.WellSplit(parts, splitSize) && P.Join(parts) == C.SetBytes(f, h, master, splitSize, data, man).value
  }

  lemma SplitSetUnfolds(f: C.Format, h: H.Header, master: Bytes, splitSize: nat, data: Bytes, man: Bytes, parts: seq<Bytes>)
    requires IsSplitSet(f, h, master, splitSize, data, man, parts)
    ensures f.Valid() && splitSize > 0 && C.SetBytes(f, h, master, splitSize, data, man).Some?
    ensures |C.SetBytes(f, h, master, splitSize, data, man).value| < TWO_TO_THE_63
    ensures C.SetTrailer(f, h, master, splitSize, data, man).partCount < TWO_TO_THE_32
    ensures P.WellSplit(parts, splitSize) && P.Join(parts) == C.SetBytes(f, h, master, splitSize, data, man).value
  {
    hide C.SetBytes, C.SetTrailer, P.WellSplit, P.Join;
  }

  /** The part files of a written set: as many as the trailer records, so that the
      comparison of the two cannot fail; together they read as what was written;
      and as long as the last of them are missing, no read succeeds, under any
      keys and any count. */
  lemma PartsReadBack(f: C.Format, h: H.Header, master: Bytes, splitSize: nat, data: Bytes, man: Bytes, parts: seq<Bytes>)
    requires IsSplitSet(f, h, master, splitSize, data, man, parts)
    ensures f.Valid() && splitSize > 0 && C.SetBytes(f, h, master, splitSize, data, man).Some?
    ensures |parts| == C.SetTrailer(f, h, master, splitSize, data, man).partCount
    ensures |P.Join(parts)| < TWO_TO_THE_63
    ensures C.ReadWithMaster(f, master, P.Join(parts), |parts|) == Some(C.Content(h, data, man))
    ensures forall k: nat :: k < |parts| ==> NeverReads(f, P.Join(parts[..k]))
  {
    hide *;
    SplitSetUnfolds(f, h, master, splitSize, data, man, parts);
    var s := P.Join(parts);
    C.SetRoundTrip(f, h, master, splitSize, data, man);
    P.WellSplitCount(parts, splitSize);
    PartCountIs(|s|, splitSize);
    forall k: nat | k < |parts|
      ensures NeverReads(f, P.Join(parts[..k]))
    {
      FewerPartsAreShorter(parts, splitSize, k);
      var n := |P.Join(parts[..k])|;
      forall keys, count: int
        ensures C.ReadSet(f, keys, s[..n], count).None?
      {
        C.TruncatedSetRefused(f, h, master, splitSize, data, man, keys, n, count);
      }
      assert P.Join(parts[..k]) == s[..n];
      NeverReadsFolds(f, s[..n]);
    }
  }

  lemma NeverReadsFolds(f: C.Format, s: Bytes)
    requires |s| < TWO_TO_THE_63 && forall keys, count: int :: C.ReadSet(f, keys, s, count).None?
    ensures NeverReads(f, s)
  {
  }

  lemma PartCountIs(total: nat, splitSize: nat)
    requires splitSize > 0
    ensures C.PartCount(total, splitSize) == (total + splitSize - 1) / splitSize
  {
  }

  lemma {:induction false} FewerPartsAreShorter(parts: seq<Bytes>, max: nat, k: nat)
    requires P.WellSplit(parts, max) && k < |parts|
    ensures |P.Join(parts[..k])| < |P.Join(parts)| && P.Join(parts[..k]) <= P.Join(parts)
    decreases |parts|
  {
    var n := |parts| - 1;
    if k < n {
      assert parts[..n][..k] == parts[..k];
      FewerPartsAreShorter(parts[..n], max, k);
    }
  }

  /** A backup of a source directory, written as a set and split into part files,
      reads back as its TAR entries and its manifest. */
  lemma BackupReadsBack(f: C.Format, h: H.Header, master: Bytes, splitSize: nat, c: L.Lines, cfg: Config, nodes: seq<Walk.Node>,
                        m: M.Manifest, parts: seq<Bytes>)
    requires c.Valid() && cfg.Valid() && VisitAll(cfg, "", nodes, 0).Done?
    requires m.entries == VisitAll(cfg, "", nodes, 0).piece.entries && L.HasShortLines(c, m)
    requires IsSplitSet(f, h, master, splitSize, Tar.Archive(cfg.codec, VisitAll(cfg, "", nodes, 0).piece.items),
                        L.Encoded(c, m), parts)
    ensures |P.Join(parts)| < TWO_TO_THE_63 && C.ReadWithMaster(f, master, P.Join(parts), |parts|).Some?
    ensures var content := C.ReadWithMaster(f, master, P.Join(parts), |parts|).value;
            && content.header == h
            && L.Reads(c, L.Scan(content.man).lines, m) && !L.Scan(content.man).tooLong
            && Tar.Parse(cfg.codec, content.data) == Tar.Section(VisitAll(cfg, "", nodes, 0).piece.items, true)
  {
    hide *;
    var p := VisitAll(cfg, "", nodes, 0).piece;
    PartsReadBack(f, h, master, splitSize, Tar.Archive(cfg.codec, p.items), L.Encoded(c, m), parts);
    L.DecodesEncoded(c, m);
    VisitAllConsistent(cfg, "", nodes, 0);
    ConsistentUnfolds(cfg, p, 0);
    SectionIs(cfg, p);
    SectionUnfolds(cfg, p);
  }

  lemma SectionUnfolds(cfg: Config, p: Piece)
    ensures Differential.Section(cfg, p) == Tar.Parse(cfg.codec, Tar.Archive(cfg.codec, p.items))
    ensures Differential.Section(cfg, p) == Tar.Received(cfg.codec, Tar.Written(cfg.codec, p.items))
  {
    hide Tar.Parse, Tar.Archive;
  }

  // -------------------------------------------------------------------------- the restore

  /** The sections that a restore feeds: that of the full backup first, when the
      set is a differential, then the set's own. */
  function SectionsOf(index: Index, codec: Tar.Codec, base: Option<Tar.Stream>, own: Tar.Stream): seq<(Decider, Tar.Section)> {
    (if base.Some? then [(BaseData(index), Tar.Received(codec, base.value))] else [])
    + [(OwnData(index), Tar.Received(codec, own))]
  }

  /** What the restore of these data streams gives; None when one is refused or a
      file is missing. */
  function Outcome(entries: seq<M.Entry>, digest: Bytes -> string, codec: Tar.Codec, base: Option<Tar.Stream>, own: Tar.Stream): Option<Contents> {
    var r := FeedAll(digest, SectionsOf(IndexOf(entries), codec, base, own));
    if r.Some? && MissingFrom(entries, false, r.value.Keys) == [] then r else None
  }

  /** The restore of one restore point. Without an error the volume shows the
      files and directories of the manifest on top of what it held, with the
      contents of the streams; with one that is not the volume's, the streams were
      refused or incomplete; into an empty destination nothing conflicts; and
      nothing outside the destination changes, whatever happens. */
  method Restore(r: R.Restorer, base: Option<Tar.Stream>, own: Tar.Stream) returns (e: Option<Failure>)
    requires r.Valid() && r.contents == map[] && r.created == {} && !r.ownOnly && r.volume.nodes == r.before
    modifies r, r.volume
    ensures r.Kept()
    ensures IsEmpty(r.volume.fold, r.dest, r.before) ==> !Conflicts(e)
    ensures e.None? ==>
              && Outcome(r.entries, r.digest, r.codec, base, own) == Some(r.contents)
              && Sound(IndexOf(r.entries), r.digest, r.contents)
              && (!r.verifyOnly ==>
                    && AllDirs(r.entries) <= IndexOf(r.entries).Keys && r.contents.Keys <= IndexOf(r.entries).Keys
                    && Shows(r.volume.fold, r.dest, r.before, r.volume.nodes,
                             Tree(IndexOf(r.entries), AllDirs(r.entries), AllDirs(r.entries), r.contents)))
    ensures r.verifyOnly ==> r.volume.nodes == r.before
    ensures e.Some? ==> e.value.VolumeFailed? || e.value.BadPath?
                        || Outcome(r.entries, r.digest, r.codec, base, own).None?
    ensures e == Some(BadPath) ==> r.isRoot
    ensures e == Some(VolumeFailed(FileSystem.Refused)) ==> r.volume.refused
  {
    hide *;
    ghost var sections := SectionsOf(IndexOf(r.entries), r.codec, base, own);
    OutcomeUnfolds(r.entries, r.digest, r.codec, base, own);
    e := r.CreateDirectories();
    if e.Some? {
      return;
    }
    var index := BuildIndex(r.entries);
    if base.Some? {
      e := r.ExtractSection(base.value, BaseData(index));
      if e.Some? {
        if e.value == Damaged {
          BaseRefused(r.digest, index, r.codec, base.value, own);
        }
        return;
      }
    }
    ghost var middle := r.contents;
    BaseTaken(r.digest, index, r.codec, base, own, middle);
    e := r.ExtractSection(own, OwnData(index));
    if e.Some? {
      return;
    }
    ReadyFolds(r);
    ValidIs(r);
    AllDirsUnfolds(r.entries);
    LawfulUnfolds(r.volume.fold, r.dest, r.entries, r.isDiff);
    DirsAreIndexed(r.volume.fold, r.entries, r.isDiff, |r.entries|);
    e := r.Finish();
    FinishConflicts(e);
  }

  lemma OutcomeUnfolds(entries: seq<M.Entry>, digest: Bytes -> string, codec: Tar.Codec, base: Option<Tar.Stream>, own: Tar.Stream)
    ensures var r := FeedAll(digest, SectionsOf(IndexOf(entries), codec, base, own));
            Outcome(entries, digest, codec, base, own) ==
            if r.Some? && MissingFrom(entries, false, r.value.Keys) == [] then r else None
  {
    hide FeedAll, SectionsOf, MissingFrom, IndexOf;
  }

  lemma BaseRefused(digest: Bytes -> string, index: Index, codec: Tar.Codec, base: Tar.Stream, own: Tar.Stream)
    requires Feed(BaseData(index), digest, Tar.Received(codec, base), map[]).None?
    ensures FeedAll(digest, SectionsOf(index, codec, Some(base), own)).None?
  {
    hide Feed, Tar.Received;
    var sections := SectionsOf(index, codec, Some(base), own);
    assert sections[..1] == [sections[0]] && [sections[0]][..0] == [];
    assert FeedAll(digest, []) == Some(map[]);
    assert FeedAll(digest, [sections[0]]).None?;
  }

  lemma BaseTaken(digest: Bytes -> string, index: Index, codec: Tar.Codec, base: Option<Tar.Stream>, own: Tar.Stream, middle: Contents)
    requires if base.None? then middle == map[]
             else Feed(BaseData(index), digest, Tar.Received(codec, base.value), map[]) == Some(middle)
    ensures FeedAll(digest, SectionsOf(index, codec, base, own)) == Feed(OwnData(index), digest, Tar.Received(codec, own), middle)
  {
    hide Feed, Tar.Received;
    var sections := SectionsOf(index, codec, base, own);
    assert FeedAll(digest, []) == Some(map[]);
    if base.Some? {
      assert sections[..1] == [sections[0]] && [sections[0]][..0] == [];
      assert FeedAll(digest, [sections[0]]) == Some(middle);
    } else {
      assert sections[..0] == [];
    }
  }

  lemma FinishConflicts(e: Option<Failure>)
    requires e.None? || e.value == VolumeFailed(FileSystem.Refused) || e.value.BadPath? || e.value.Missing?
    ensures !Conflicts(e)
  {
  }

  // ------------------------------------------------------------- the state that is restored

  /** The attributes and exactly these times. */
  predicate HasMark(node: FileSystem.Node, m: Mark) {
    && node.created == At(m.creationTime) && node.written == At(m.modTime)
    && node.attributes == m.attributes & M.ATTR_MASK
  }

  /** The attributes, and what setTimes leaves of these times. */
  predicate LeftMark(node: FileSystem.Node, m: Mark) {
    && node.created == StampOf(m.creationTime) && node.written == StampOf(m.modTime)
    && node.attributes == m.attributes & M.ATTR_MASK
  }

  /** Of read-only, hidden and system exactly those that the source has, and no other attribute. */
  predicate KeepsFlags(attributes: bv32, source: bv32) {
    && attributes & 0x1 == source & 0x1 && attributes & 0x2 == source & 0x2 && attributes & 0x4 == source & 0x4
    && attributes & 0xFFFF_FFF8 == 0
  }

  lemma MaskKeepsFlags(a: bv32)
    ensures KeepsFlags(a & M.ATTR_MASK, a) && KeepsFlags(a & M.ATTR_MASK & M.ATTR_MASK, a)
  {
  }

  /** From a file or directory of the source through its manifest entry to the
      restored one: the three restorable attributes stay, bit by bit. */
  lemma FlagsAreKept(cfg: Config, path: string, f: Walk.Node, at: nat, meta: Meta, node: FileSystem.Node)
    requires f.File?
    ensures WriteFile(cfg, path, f, at).Stored? ==>
              && KeepsFlags(WriteFile(cfg, path, f, at).entry.attributes, f.opening.meta.attributes)
              && KeepsFlags(FileNode(WriteFile(cfg, path, f, at).entry, f.content).attributes, f.opening.meta.attributes)
    ensures KeepsFlags(DirEntry(path, meta).attributes, meta.attributes)
    ensures KeepsFlags(DirNode(DirEntry(path, meta)).attributes, meta.attributes)
    ensures LeftMark(node, CurrentMark(path, meta)) || HasMark(node, CurrentMark(path, meta))
            || LeftMark(node, DirMark(path, meta)) || HasMark(node, DirMark(path, meta)) ==>
              KeepsFlags(node.attributes, meta.attributes)
  {
    MaskKeepsFlags(meta.attributes);
    if f.opening.Opened? {
      MaskKeepsFlags(f.opening.meta.attributes);
    }
    hide KeepsFlags, M.ATTR_MASK;
  }

  ghost predicate HasFiles(fold: char -> char, dest: string, nodes: Nodes, files: set<(string, Bytes)>) {
    forall x :: x in files ==>
      var k := Key(fold, dest, x.0); k in nodes && nodes[k].File? && nodes[k].content == x.1
  }

  /** The files and directories have their marks; with `left`, as far as setTimes sets them. */
  ghost predicate HasMarks(fold: char -> char, dest: string, nodes: Nodes, state: State, left: bool) {
    && (forall m :: m in state.marks ==>
          var k := Key(fold, dest, m.path);
          k in nodes && nodes[k].File? && if left then LeftMark(nodes[k], m) else HasMark(nodes[k], m))
    && (forall m :: m in state.dirs ==>
          var k := Key(fold, dest, m.path);
          k in nodes && nodes[k].Dir? && if left then LeftMark(nodes[k], m) else HasMark(nodes[k], m))
  }

  ghost predicate HasNothingElse(fold: char -> char, dest: string, nodes: Nodes, state: State) {
    forall k :: k in nodes && IsBelow(k, M.Fold(fold, dest)) ==>
      || (exists x :: x in state.files && Key(fold, dest, x.0) == k)
      || (exists m :: m in state.dirs && Key(fold, dest, m.path) == k)
  }

  /** The destination holds exactly this state: its files with their content,
      times and attributes, its directories with theirs, and nothing else. */
  ghost predicate Holds(fold: char -> char, dest: string, nodes: Nodes, state: State) {
    && HasFiles(fold, dest, nodes, state.files) && HasMarks(fold, dest, nodes, state, false)
    && HasNothingElse(fold, dest, nodes, state)
  }

  /** The same, except that a time of zero was not set. */
  ghost predicate HoldsUndated(fold: char -> char, dest: string, nodes: Nodes, state: State) {
    && HasFiles(fold, dest, nodes, state.files) && HasMarks(fold, dest, nodes, state, true)
    && HasNothingElse(fold, dest, nodes, state)
  }

  /** No time is the first moment of 1970, which is recorded as zero. */
  ghost predicate AllDated(state: State) { forall m :: m in state.marks + state.dirs ==> m.creationTime != 0 && m.modTime != 0 }

  /** Times that setTimes was given are the recorded ones exactly when none is zero. */
  lemma MarksAreDated(fold: char -> char, dest: string, nodes: Nodes, state: State)
    requires HasMarks(fold, dest, nodes, state, true)
    ensures HasMarks(fold, dest, nodes, state, false) <==> AllDated(state)
  {
    hide Key;
    if HasMarks(fold, dest, nodes, state, false) {
      forall m | m in state.marks + state.dirs
        ensures m.creationTime != 0 && m.modTime != 0
      {
        var node := nodes[Key(fold, dest, m.path)];
        assert LeftMark(node, m) && HasMark(node, m);
      }
    }
  }

  lemma OtherContentIsNotHeld(fold: char -> char, dest: string, nodes: Nodes, files: set<(string, Bytes)>, p: string, x: Bytes, y: Bytes)
    requires HasFiles(fold, dest, nodes, files) && (p, x) in files && x != y
    ensures !(Key(fold, dest, p) in nodes && nodes[Key(fold, dest, p)].File? && nodes[Key(fold, dest, p)].content == y)
  {
    hide Key;
  }

  /** Different paths of the state are different places of the volume. */
  ghost predicate HasKeys(fold: char -> char, dest: string, state: State) {
    forall p, q :: p in PathsOf(state) && q in PathsOf(state) && p != q ==> Key(fold, dest, p) != Key(fold, dest, q)
  }

  /** A directory that is not wanted keeps the destination from holding the wanted state. */
  lemma MoreIsNotHeld(fold: char -> char, dest: string, nodes: Nodes, seen: State, wanted: State)
    requires M.Folding(fold) && HasKeys(fold, dest, seen) && PathsOf(wanted) <= PathsOf(seen)
    requires HasMarks(fold, dest, nodes, seen, true) && HasMore(seen, wanted)
    ensures !HasNothingElse(fold, dest, nodes, wanted)
  {
    var m :| m in seen.dirs && m.path !in PathsOf(wanted);
    assert m.path in PathsOf(seen);
    KeyIs(fold, dest, m.path);
    PathsAre(wanted);
    hide Key, IsBelow, PathsOf, M.Folding, M.Fold;
    assert forall q :: q in PathsOf(wanted) ==> Key(fold, dest, q) != Key(fold, dest, m.path);
  }

  lemma PathsAre(s: State)
    ensures forall x :: x in s.files ==> x.0 in PathsOf(s)
    ensures forall m :: m in s.dirs ==> m.path in PathsOf(s)
  {
  }

  /** A destination with the seen state holds the wanted one exactly when the two are
      the same and no time is zero. */
  lemma HoldsWanted(fold: char -> char, dest: string, nodes: Nodes, seen: State, wanted: State)
    requires M.Folding(fold) && HasKeys(fold, dest, seen) && HoldsUndated(fold, dest, nodes, seen) && Covers(seen, wanted)
    requires seen.files == wanted.files || Differ(seen, wanted)
    requires seen.dirs == wanted.dirs || HasMore(seen, wanted)
    ensures Holds(fold, dest, nodes, wanted) <==>
            !Differ(seen, wanted) && !HasMore(seen, wanted) && AllDated(wanted)
  {
    hide Key, AllDated, PathsOf, HasKeys, IsBelow, M.Folding, M.Fold;
    if HasMore(seen, wanted) {
      MoreIsNotHeld(fold, dest, nodes, seen, wanted);
    } else {
      assert HasMarks(fold, dest, nodes, wanted, true);
      MarksAreDated(fold, dest, nodes, wanted);
      if Differ(seen, wanted) {
        var p, x, y :| x != y && (p, x) in seen.files && (p, y) in wanted.files;
        OtherContentIsNotHeld(fold, dest, nodes, seen.files, p, x, y);
      }
    }
  }

  /** What a finished restore shows is what its manifest and contents say. */
  lemma ShownIsHeld(fold: char -> char, dest: string, entries: seq<M.Entry>, isDiff: bool, digest: Bytes -> string,
                    before: Nodes, now: Nodes, contents: Contents)
    requires Lawful(fold, dest, entries, isDiff) && IsEmpty(fold, dest, before)
    requires AllDirs(entries) <= IndexOf(entries).Keys && contents.Keys <= IndexOf(entries).Keys
    requires Sound(IndexOf(entries), digest, contents) && MissingFrom(entries, false, contents.Keys) == []
    requires Shows(fold, dest, before, now, Tree(IndexOf(entries), AllDirs(entries), AllDirs(entries), contents))
    ensures HoldsUndated(fold, dest, now, State(Pairs(contents), FileMarks(entries), DirMarks(entries)))
  {
    hide *;
    RestoredExactly(fold, dest, entries, isDiff, digest, before, now, contents);
    SoundUnfolds(IndexOf(entries), digest, contents);
    LawfulUnfolds(fold, dest, entries, isDiff);
    ValidIsDistinct(fold, entries, isDiff);
    IndexHolds(entries);
    var state := State(Pairs(contents), FileMarks(entries), DirMarks(entries));
    HeldFiles(fold, dest, entries, now, contents);
    HeldMarks(fold, dest, entries, now, contents, state);
    HeldNothingElse(fold, dest, entries, now, contents, state);
    HoldsFolds(fold, dest, now, state);
  }

  lemma HeldFiles(fold: char -> char, dest: string, entries: seq<M.Entry>, now: Nodes, contents: Contents)
    requires forall e :: e in entries && e.kind == M.FileKind ==>
               var k := Key(fold, dest, e.path); k in now && e.path in contents && now[k] == FileNode(e, contents[e.path])
    requires forall p :: p in contents ==> exists e :: e in entries && e.kind == M.FileKind && e.path == p
    ensures HasFiles(fold, dest, now, Pairs(contents))
  {
    hide Key;
  }

  lemma HeldMarks(fold: char -> char, dest: string, entries: seq<M.Entry>, now: Nodes, contents: Contents, state: State)
    requires state.marks == FileMarks(entries) && state.dirs == DirMarks(entries)
    requires forall e :: e in entries && e.kind == M.FileKind ==>
               var k := Key(fold, dest, e.path); k in now && e.path in contents && now[k] == FileNode(e, contents[e.path])
    requires forall e :: e in entries && e.kind == M.DirKind ==>
               Key(fold, dest, e.path) in now && now[Key(fold, dest, e.path)] == DirNode(e)
    ensures HasMarks(fold, dest, now, state, true)
  {
    hide Key, StampOf;
  }

  lemma HeldNothingElse(fold: char -> char, dest: string, entries: seq<M.Entry>, now: Nodes, contents: Contents, state: State)
    requires state.files == Pairs(contents) && state.dirs == DirMarks(entries)
    requires forall e :: e in entries && e.kind == M.FileKind ==> e.path in contents
    requires forall k :: k in now && IsBelow(k, M.Fold(fold, dest)) ==>
               exists e :: e in entries && (e.kind == M.FileKind || e.kind == M.DirKind) && Key(fold, dest, e.path) == k
    ensures HasNothingElse(fold, dest, now, state)
  {
    hide Key, IsBelow, M.Fold;
    forall k | k in now && IsBelow(k, M.Fold(fold, dest))
      ensures || (exists x :: x in state.files && Key(fold, dest, x.0) == k)
              || (exists m :: m in state.dirs && Key(fold, dest, m.path) == k)
    {
      var e :| e in entries && (e.kind == M.FileKind || e.kind == M.DirKind) && Key(fold, dest, e.path) == k;
      if e.kind == M.FileKind {
        assert (e.path, contents[e.path]) in Pairs(contents);
      } else {
        assert MarkOf(e) in DirMarks(entries);
      }
    }
  }

  lemma HoldsFolds(fold: char -> char, dest: string, nodes: Nodes, state: State)
    requires HasFiles(fold, dest, nodes, state.files) && HasMarks(fold, dest, nodes, state, true)
    requires HasNothingElse(fold, dest, nodes, state)
    ensures HoldsUndated(fold, dest, nodes, state)
  {
    hide HasFiles, HasMarks, HasNothingElse;
  }

  /** The paths of what a restore holds are those of its entries. */
  lemma StateHasKeys(fold: char -> char, dest: string, entries: seq<M.Entry>, isDiff: bool, digest: Bytes -> string, contents: Contents)
    requires Lawful(fold, dest, entries, isDiff) && Sound(IndexOf(entries), digest, contents)
    ensures HasKeys(fold, dest, State(Pairs(contents), FileMarks(entries), DirMarks(entries)))
  {
    ValidIsDistinct(fold, entries, isDiff);
    IndexHolds(entries);
    SoundUnfolds(IndexOf(entries), digest, contents);
    hide IndexOf, Key, Lawful, Sound, M.ValidEntries;
    var state := State(Pairs(contents), FileMarks(entries), DirMarks(entries));
    forall p, q | p in PathsOf(state) && q in PathsOf(state) && p != q
      ensures Key(fold, dest, p) != Key(fold, dest, q)
    {
      KeysOfTree(fold, dest, entries, isDiff, p, q);
    }
  }

  /** What is left of the wanted state in the destination. */
  lemma RestoredIsWanted(fold: char -> char, dest: string, nodes: Nodes, cfg: Config, source: seq<Walk.Node>, full: Contents,
                         entries: seq<M.Entry>, contents: Contents)
    requires M.Folding(fold) && HasKeys(fold, dest, State(Pairs(contents), FileMarks(entries), DirMarks(entries)))
    requires HoldsUndated(fold, dest, nodes, State(Pairs(contents), FileMarks(entries), DirMarks(entries)))
    requires Pairs(contents) == SeenAll(cfg, "", source, full).files && Compares(cfg, source, full)
    requires FileMarks(entries) == WantedAll(cfg, "", source, full).marks
    requires DirMarks(entries) == SeenAll(cfg, "", source, full).dirs
    ensures IsRestored(fold, dest, nodes, cfg, source, full)
  {
    hide HoldsUndated, Holds, SeenAll, WantedAll, AllWhole, AllListed, AllDated, Pairs, FileMarks, DirMarks, HasKeys, Differ,
      HasMore, PathsOf, M.Folding;
    var seen, wanted := SeenAll(cfg, "", source, full), WantedAll(cfg, "", source, full);
    assert seen.marks == wanted.marks;
    StateIs(seen, Pairs(contents), FileMarks(entries), DirMarks(entries));
    HoldsWanted(fold, dest, nodes, seen, wanted);
    SameDiffer(contents, seen, wanted);
  }

  /** The same contents do not differ, and the same directories are not more. */
  lemma SameDiffer(contents: Contents, seen: State, wanted: State)
    requires seen.files == Pairs(contents)
    ensures seen.files == wanted.files ==> !Differ(seen, wanted)
    ensures seen.dirs == wanted.dirs ==> !HasMore(seen, wanted)
  {
    PathsAre(wanted);
    hide PathsOf;
  }

  /** The destination holds what reading the source delivered. That is the state of
      the source if and only if every stored file is whole, no recorded directory
      was gone when it was listed, and no time is zero. */
  ghost predicate IsRestored(fold: char -> char, dest: string, now: Nodes, cfg: Config, nodes: seq<Walk.Node>, full: Contents) {
    && HoldsUndated(fold, dest, now, SeenAll(cfg, "", nodes, full))
    && (Holds(fold, dest, now, WantedAll(cfg, "", nodes, full)) <==>
          AllWhole(cfg, "", nodes) && AllListed(cfg, "", nodes) && AllDated(WantedAll(cfg, "", nodes, full)))
  }

  /** The restore of these streams gives what reading the source delivered. */
  ghost predicate Gives(cfg: Config, nodes: seq<Walk.Node>, full: Contents, entries: seq<M.Entry>, codec: Tar.Codec,
                        base: Option<Tar.Stream>, own: Tar.Stream) {
    var outcome := Outcome(entries, cfg.digest, codec, base, own);
    && outcome.Some? && Pairs(outcome.value) == SeenAll(cfg, "", nodes, full).files
    && FileMarks(entries) == WantedAll(cfg, "", nodes, full).marks && DirMarks(entries) == SeenAll(cfg, "", nodes, full).dirs
    && Compares(cfg, nodes, full)
  }

  lemma FullGives(fold: char -> char, cfg: Config, nodes: seq<Walk.Node>)
    requires cfg.Valid() && cfg.base.None? && VisitAll(cfg, "", nodes, 0).Done?
    requires M.ValidEntries(fold, VisitAll(cfg, "", nodes, 0).piece.entries, false)
    ensures var p := VisitAll(cfg, "", nodes, 0).piece;
            Gives(cfg, nodes, map[], p.entries, cfg.codec, None, Tar.Written(cfg.codec, p.items))
  {
    hide *;
    var p := VisitAll(cfg, "", nodes, 0).piece;
    var own := Tar.Written(cfg.codec, p.items);
    FullRestores(fold, cfg, nodes);
    SectionUnfolds(cfg, p);
    OneSection(IndexOf(p.entries), cfg.codec, own);
    OutcomeUnfolds(p.entries, cfg.digest, cfg.codec, None, own);
    GivesFolds(cfg, nodes, map[], p.entries, cfg.codec, None, own);
  }

  lemma ChainGives(fold: char -> char, cfg0: Config, nodes0: seq<Walk.Node>, full: Contents, cfg1: Config, nodes1: seq<Walk.Node>)
    requires IsChain(fold, cfg0, nodes0, full, cfg1, nodes1) && cfg0.codec == cfg1.codec
    ensures VisitAll(cfg0, "", nodes0, 0).Done? && VisitAll(cfg1, "", nodes1, 0).Done?
    ensures var p0, p1 := VisitAll(cfg0, "", nodes0, 0).piece, VisitAll(cfg1, "", nodes1, 0).piece;
            Gives(cfg1, nodes1, full, p1.entries, cfg1.codec, Some(Tar.Written(cfg1.codec, p0.items)),
                  Tar.Written(cfg1.codec, p1.items))
  {
    hide *;
    ChainIs(fold, cfg0, nodes0, full, cfg1, nodes1);
    var p0, p1 := VisitAll(cfg0, "", nodes0, 0).piece, VisitAll(cfg1, "", nodes1, 0).piece;
    var base, own := Tar.Written(cfg1.codec, p0.items), Tar.Written(cfg1.codec, p1.items);
    DifferentialRestores(fold, cfg0, nodes0, full, cfg1, nodes1);
    SectionUnfolds(cfg0, p0);
    SectionUnfolds(cfg1, p1);
    TwoSections(IndexOf(p1.entries), cfg1.codec, base, own);
    OutcomeUnfolds(p1.entries, cfg1.digest, cfg1.codec, Some(base), own);
    GivesFolds(cfg1, nodes1, full, p1.entries, cfg1.codec, Some(base), own);
  }

  lemma GivesFolds(cfg: Config, nodes: seq<Walk.Node>, full: Contents, entries: seq<M.Entry>, codec: Tar.Codec,
                   base: Option<Tar.Stream>, own: Tar.Stream)
    ensures var outcome := Outcome(entries, cfg.digest, codec, base, own);
            Gives(cfg, nodes, full, entries, codec, base, own) <==>
            && outcome.Some? && Pairs(outcome.value) == SeenAll(cfg, "", nodes, full).files
            && FileMarks(entries) == WantedAll(cfg, "", nodes, full).marks
            && DirMarks(entries) == SeenAll(cfg, "", nodes, full).dirs && Compares(cfg, nodes, full)
  {
    hide Outcome, WantedAll, SeenAll, Pairs, FileMarks, DirMarks, Compares;
  }

  /** What a restore of such streams without an error leaves in an empty destination. */
  lemma GivenIsRestored(fold: char -> char, dest: string, entries: seq<M.Entry>, isDiff: bool, before: Nodes, now: Nodes,
                        contents: Contents, cfg: Config, nodes: seq<Walk.Node>, full: Contents, codec: Tar.Codec,
                        base: Option<Tar.Stream>, own: Tar.Stream)
    requires Gives(cfg, nodes, full, entries, codec, base, own)
    requires Outcome(entries, cfg.digest, codec, base, own) == Some(contents)
    requires Lawful(fold, dest, entries, isDiff) && IsEmpty(fold, dest, before)
    requires AllDirs(entries) <= IndexOf(entries).Keys && contents.Keys <= IndexOf(entries).Keys
    requires Sound(IndexOf(entries), cfg.digest, contents)
    requires Shows(fold, dest, before, now, Tree(IndexOf(entries), AllDirs(entries), AllDirs(entries), contents))
    ensures IsRestored(fold, dest, now, cfg, nodes, full)
  {
    hide SectionsOf, Lawful, IsEmpty, AllDirs, IndexOf, Sound, Shows, Tree, HoldsUndated, SeenAll, WantedAll, IsRestored, Compares,
      Pairs, FileMarks, DirMarks, MissingFrom, FeedAll, HasKeys, M.Folding;
    LawfulUnfolds(fold, dest, entries, isDiff);
    StateHasKeys(fold, dest, entries, isDiff, cfg.digest, contents);
    ShownIsHeld(fold, dest, entries, isDiff, cfg.digest, before, now, contents);
    RestoredIsWanted(fold, dest, now, cfg, nodes, full, entries, contents);
  }

  /** Restoring a full backup into an empty destination: it fails only when the
      volume refuses an operation or the destination is the root of a volume;
      otherwise the destination holds what reading the source delivered, and that
      is exactly the state of the source if and only if every stored file is
      whole, no recorded directory was gone at its listing, and no time is zero. */
  method RestoreFull(r: R.Restorer, own: Tar.Stream, ghost cfg: Config, ghost nodes: seq<Walk.Node>) returns (e: Option<Failure>)
    requires r.Valid() && r.contents == map[] && r.created == {} && !r.ownOnly && r.volume.nodes == r.before
    requires !r.verifyOnly && IsEmpty(r.volume.fold, r.dest, r.before)
    requires cfg.Valid() && cfg.base.None? && VisitAll(cfg, "", nodes, 0).Done?
    requires M.ValidEntries(r.volume.fold, VisitAll(cfg, "", nodes, 0).piece.entries, false)
    requires r.codec == cfg.codec && r.digest == cfg.digest && r.entries == VisitAll(cfg, "", nodes, 0).piece.entries
    requires own == Tar.Written(cfg.codec, VisitAll(cfg, "", nodes, 0).piece.items)
    modifies r, r.volume
    ensures r.Kept()
    ensures e.None? || (e.value == VolumeFailed(FileSystem.Refused) && r.volume.refused) || (e.value.BadPath? && r.isRoot)
    ensures e.None? ==> IsRestored(r.volume.fold, r.dest, r.volume.nodes, cfg, nodes, map[])
  {
    hide *;
    FullGives(r.volume.fold, cfg, nodes);
    GivesFolds(cfg, nodes, map[], r.entries, r.codec, None, own);
    ValidIs(r);
    e := Restore(r, None, own);
    if e.Some? {
      ConflictsUnfolds(e.value);
      ErrorKinds(e.value);
    } else {
      GivenIsRestored(r.volume.fold, r.dest, r.entries, r.isDiff, r.before, r.volume.nodes, r.contents, cfg, nodes, map[],
                      r.codec, None, own);
    }
  }

  lemma OneSection(index: Index, codec: Tar.Codec, own: Tar.Stream)
    ensures SectionsOf(index, codec, None, own) == [(OwnData(index), Tar.Received(codec, own))]
  {
    hide Tar.Received;
  }

  /** Restoring a differential of a chain into an empty destination: it fails only
      when the volume refuses an operation or the destination is the root of a
      volume; otherwise the destination holds what reading the later source
      delivered, and that is exactly the later state if and only if every stored
      file is whole, no recorded directory was gone at its listing, and no time is
      zero. */
  method RestoreDifferential(r: R.Restorer, base: Tar.Stream, own: Tar.Stream, ghost cfg0: Config, ghost nodes0: seq<Walk.Node>,
                             ghost full: Contents, ghost cfg1: Config, ghost nodes1: seq<Walk.Node>)
    returns (e: Option<Failure>)
    requires r.Valid() && r.contents == map[] && r.created == {} && !r.ownOnly && r.volume.nodes == r.before
    requires !r.verifyOnly && IsEmpty(r.volume.fold, r.dest, r.before)
    requires IsChain(r.volume.fold, cfg0, nodes0, full, cfg1, nodes1)
    requires r.codec == cfg0.codec == cfg1.codec && r.digest == cfg1.digest
    requires r.entries == VisitAll(cfg1, "", nodes1, 0).piece.entries
    requires base == Tar.Written(cfg0.codec, VisitAll(cfg0, "", nodes0, 0).piece.items)
    requires own == Tar.Written(cfg1.codec, VisitAll(cfg1, "", nodes1, 0).piece.items)
    modifies r, r.volume
    ensures r.Kept()
    ensures e.None? || (e.value == VolumeFailed(FileSystem.Refused) && r.volume.refused) || (e.value.BadPath? && r.isRoot)
    ensures e.None? ==> IsRestored(r.volume.fold, r.dest, r.volume.nodes, cfg1, nodes1, full)
  {
    hide *;
    ChainGives(r.volume.fold, cfg0, nodes0, full, cfg1, nodes1);
    GivesFolds(cfg1, nodes1, full, r.entries, r.codec, Some(base), own);
    ValidIs(r);
    e := Restore(r, Some(base), own);
    if e.Some? {
      ConflictsUnfolds(e.value);
      ErrorKinds(e.value);
    } else {
      GivenIsRestored(r.volume.fold, r.dest, r.entries, r.isDiff, r.before, r.volume.nodes, r.contents, cfg1, nodes1, full,
                      r.codec, Some(base), own);
    }
  }

  lemma StateIs(s: State, files: set<(string, Bytes)>, marks: set<Mark>, dirs: set<Mark>)
    requires s.files == files && s.marks == marks && s.dirs == dirs
    ensures s == State(files, marks, dirs)
  {
  }

  lemma TwoSections(index: Index, codec: Tar.Codec, base: Tar.Stream, own: Tar.Stream)
    ensures SectionsOf(index, codec, Some(base), own) ==
            [(BaseData(index), Tar.Received(codec, base)), (OwnData(index), Tar.Received(codec, own))]
  {
    hide Tar.Received;
  }

  lemma ErrorKinds(f: Failure)
    ensures f.VolumeFailed? ==>
              f.error.Exists? || f.error.NoParent? || f.error.NotFound? || f == VolumeFailed(FileSystem.Refused)
  {
  }
}
