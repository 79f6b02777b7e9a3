/** A restore point from its part files: the set, for a differential also its
    full backup, and the restore of both into a destination. */
module RestorePoint {
  import opened Wrappers
  import opened Binary
  import opened Walk
  import opened WalkValid
  import opened FileSystem
  import opened Decide
  import opened Destination
  import opened Restorer
  import R = Restorer
  import opened Differential
  import opened EndToEnd
  import C = Container
  import H = SetHeader
  import L = ManifestCodec
  import M = Manifest
  import P = Split
  import Paths
  import Tar

  // ---------------------------------------------------------------------------- loading

  /** The primitives and codecs that reading a set needs; hexHash is the hex
      SHA-256 of a text, both of file contents and of manifests. */
  datatype Reader = Reader(format: C.Format, lines: L.Lines, tar: Tar.Codec, hexHash: Bytes -> string, fold: char -> char)

  /** A manifest to restore, with the data streams of its set and of the full backup. */
  datatype Point = Point(manifest: M.Manifest, own: Tar.Stream, base: Option<Tar.Stream>)

  datatype ReadError = NoBase | SetUnreadable | BadManifest | OtherHeader | WrongBase | RestoreFailed(failure: Failure)

  /** The manifest is that of the set with this header. */
  predicate BelongsTo(m: M.Header, h: H.Header) {
    m.setType == h.setType && m.chainId == h.chainId && m.diffNumber == h.diffNumber && m.directoryName == h.directoryName
  }

  /** checkBaseLink: base is the full backup the differential was written against. */
  predicate IsLinked(diff: H.Header, base: H.Header, baseManifestHash: string) {
    && !base.IsDiff()
    && base.chainId == diff.chainId && base.directoryName == diff.directoryName && base.date == diff.baseDate
    && base.keySetId == diff.keySetId && baseManifestHash == diff.baseManifestHash
  }

  function ContentOf(r: Reader, master: Bytes, parts: seq<Bytes>): Option<C.Delivery> {
    if |P.Join(parts)| < TWO_TO_THE_63 then C.Receive(r.format, master, P.Join(parts), |parts|) else None
  }

  function DataOf(content: C.Delivery): Tar.Stream { Tar.Stream(content.data, content.whole) }

  /** The text is that of a valid manifest of the set. */
  ghost predicate HasManifest(r: Reader, content: C.Delivery, m: M.Manifest) {
    && !L.Scan(content.man).tooLong && L.Reads(r.lines, L.Scan(content.man).lines, m)
    && M.ValidManifest(r.fold, m) && BelongsTo(m.header, content.header)
  }

  /** What the part files of a restore point say. */
  ghost predicate Loads(r: Reader, master: Bytes, parts: seq<Bytes>, baseParts: Option<seq<Bytes>>, p: Point) {
    var own := ContentOf(r, master, parts);
    && own.Some? && HasManifest(r, own.value, p.manifest) && p.own == DataOf(own.value)
    && if own.value.header.IsDiff() then
         && baseParts.Some? && p.base.Some?
         && var base := ContentOf(r, master, baseParts.value);
            && base.Some? && p.base.value == DataOf(base.value)
            && IsLinked(own.value.header, base.value.header, r.hexHash(base.value.man))
            && exists m :: HasManifest(r, base.value, m)
       else p.base.None?
  }

  /** The manifest section is the text of this valid manifest. */
  ghost predicate IsText(r: Reader, content: C.Delivery, m: M.Manifest) {
    !L.Scan(content.man).tooLong && L.Reads(r.lines, L.Scan(content.man).lines, m) && M.ValidManifest(r.fold, m)
  }

  /** Why a set has no manifest to restore from. */
  ghost predicate IsRefusal(r: Reader, content: C.Delivery, e: ReadError) {
    match e
    case BadManifest => forall m :: !IsText(r, content, m)
    case OtherHeader =>
      exists m :: IsText(r, content, m) &&
        var (x, h) := (m.header, content.header);
        x.setType != h.setType || x.chainId != h.chainId || x.diffNumber != h.diffNumber || x.directoryName != h.directoryName
    case _ => false
  }

  /** ReadManifest of a set whose manifest section can be decrypted. */
  method ReadManifest(r: Reader, content: C.Delivery) returns (m: Option<M.Manifest>, error: ReadError)
    ensures m.Some? ==> HasManifest(r, content, m.value)
    ensures m.None? ==> (error == BadManifest || error == OtherHeader) && forall x :: !HasManifest(r, content, x)
    ensures m.None? ==> IsRefusal(r, content, error)
    ensures m.Some? ==>
              var (x, h) := (m.value.header, content.header);
              && x.setType == h.setType && x.chainId == h.chainId && x.diffNumber == h.diffNumber
              && x.directoryName == h.directoryName
  {
    hide L.Scan, L.Reads, M.ValidManifest, HasManifest;
    var decoded := L.Decode(r.lines, r.fold, content.man);
    HasManifestUnfolds(r, content);
    L.ReadsOne(r.lines, L.Scan(content.man).lines);
    match decoded
    case Refused(_) => return None, BadManifest;
    case Decoded(manifest) =>
      assert IsText(r, content, manifest);
      if !BelongsTo(manifest.header, content.header) {
        return None, OtherHeader;
      }
      return Some(manifest), BadManifest;
  }

  lemma HasManifestUnfolds(r: Reader, content: C.Delivery)
    ensures forall m :: HasManifest(r, content, m) <==>
              && !L.Scan(content.man).tooLong && L.Reads(r.lines, L.Scan(content.man).lines, m)
              && M.ValidManifest(r.fold, m) && BelongsTo(m.header, content.header)
  {
    hide L.Scan, L.Reads, M.ValidManifest, BelongsTo;
  }

  function BaseContent(r: Reader, master: Bytes, baseParts: Option<seq<Bytes>>): Option<C.Delivery> {
    if baseParts.None? then None else ContentOf(r, master, baseParts.value)
  }

  /** Something about the base is not what the differential names. */
  predicate Mismatch(r: Reader, diff: H.Header, base: C.Delivery) {
    || base.header.setType == "diff" || base.header.chainId != diff.chainId
    || base.header.directoryName != diff.directoryName || base.header.keySetId != diff.keySetId
    || base.header.date != diff.baseDate || r.hexHash(base.man) != diff.baseManifestHash
  }

  /** Why there is nothing to restore: what the set and its base give. */
  ghost predicate IsReason(r: Reader, own: Option<C.Delivery>, hasBase: bool, base: Option<C.Delivery>, e: ReadError) {
    if own.None? then e == SetUnreadable
    else if own.value.header.setType != "diff" then IsRefusal(r, own.value, e)
    else if !hasBase then e == NoBase
    else if IsRefusal(r, own.value, e) then true
    else if base.None? then e == SetUnreadable
    else IsRefusal(r, base.value, e) || (e == WrongBase && Mismatch(r, own.value.header, base.value))
  }

  /** The part of the restore before anything is written. A base is accepted only
      as the full backup that the differential names; when both sets are readable
      with valid manifests, it is refused exactly when one field differs. */
  method Load(r: Reader, master: Bytes, parts: seq<Bytes>, baseParts: Option<seq<Bytes>>)
    returns (p: Option<Point>, error: ReadError)
    ensures p.Some? ==> Loads(r, master, parts, baseParts, p.value)
    ensures p.None? ==> !error.RestoreFailed? && forall x :: !Loads(r, master, parts, baseParts, x)
    ensures p.Some? ==>
              var own := ContentOf(r, master, parts);
              && own.Some? && (p.value.base.Some? <==> own.value.header.setType == "diff")
              && (p.value.base.Some? ==>
                    && baseParts.Some? && ContentOf(r, master, baseParts.value).Some?
                    && !Mismatch(r, own.value.header, ContentOf(r, master, baseParts.value).value))
    ensures p.None? ==> IsReason(r, ContentOf(r, master, parts), baseParts.Some?, BaseContent(r, master, baseParts), error)
    ensures var own, base := ContentOf(r, master, parts), BaseContent(r, master, baseParts);
            own.Some? && own.value.header.setType == "diff" && base.Some?
            && (exists m :: HasManifest(r, own.value, m)) && (exists m :: HasManifest(r, base.value, m)) ==>
              (p.None? && error == WrongBase <==> Mismatch(r, own.value.header, base.value))
  {
    hide HasManifest, ContentOf, IsRefusal, IsText;
    var own := ContentOf(r, master, parts);
    if own.None? {
      return None, SetUnreadable;
    }
    if own.value.header.IsDiff() && baseParts.None? {
      return None, NoBase;
    }
    var m;
    m, error := ReadManifest(r, own.value);
    if m.None? {
      return None, error;
    }
    if !own.value.header.IsDiff() {
      return Some(Point(m.value, DataOf(own.value), None)), error;
    }
    var base := ContentOf(r, master, baseParts.value);
    if base.None? {
      return None, SetUnreadable;
    }
    var baseManifest;
    baseManifest, error := ReadManifest(r, base.value);
    if baseManifest.None? {
      return None, error;
    }
    if !IsLinked(own.value.header, base.value.header, r.hexHash(base.value.man)) {
      return None, WrongBase;
    }
    return Some(Point(m.value, DataOf(own.value), Some(DataOf(base.value)))), error;
  }

  /** Part files say one thing only. */
  lemma LoadsOne(r: Reader, master: Bytes, parts: seq<Bytes>, baseParts: Option<seq<Bytes>>, p: Point, q: Point)
    requires Loads(r, master, parts, baseParts, p) && Loads(r, master, parts, baseParts, q)
    ensures p == q
  {
    L.ReadsOne(r.lines, L.Scan(ContentOf(r, master, parts).value.man).lines);
    hide ContentOf, M.ValidManifest, IsLinked, L.Scan, L.Reads, BelongsTo;
  }

  // ---------------------------------------------------------------------------- reading

  /** Restore and Verify: the manifest of the set, once all its files are restored
      or checked. Nothing is written before the part files say what to restore;
      files are then extracted also from a data section that ends in an error;
      nothing outside the destination changes in any case. */
  method Read(r: Reader, master: Bytes, parts: seq<Bytes>, baseParts: Option<seq<Bytes>>,
              volume: Volume, dest: string, isRoot: bool, verifyOnly: bool)
    returns (m: Option<M.Manifest>, error: ReadError, ghost p: Point, ghost contents: Contents)
    requires volume.fold == r.fold && M.Folding(r.fold) && Paths.PlainPath(dest)
    modifies volume
    ensures Contained(r.fold, dest, old(volume.nodes), volume.nodes)
    ensures verifyOnly ==> volume.nodes == old(volume.nodes)
    ensures m.None? && !error.RestoreFailed? ==>
              volume.nodes == old(volume.nodes) && forall x :: !Loads(r, master, parts, baseParts, x)
    ensures m.Some? || error.RestoreFailed? ==> Loads(r, master, parts, baseParts, p)
    ensures m.None? && error == RestoreFailed(VolumeFailed(FileSystem.Refused)) ==> volume.refused
    ensures m.None? && error.RestoreFailed? ==>
              && (IsEmpty(r.fold, dest, old(volume.nodes)) ==> !Conflicts(Some(error.failure)))
              && (error.failure == BadPath ==> isRoot)
              && (error.failure.VolumeFailed? || error.failure.BadPath?
                  || EndToEnd.Outcome(p.manifest.entries, r.hexHash, r.tar, p.base, p.own).None?)
    ensures m.Some? ==> ReadsWhole(r, master, parts, p.own)
    ensures m.Some? && p.base.Some? ==> baseParts.Some? && ReadsWhole(r, master, baseParts.value, p.base.value)
    ensures m.Some? ==>
              var entries := p.manifest.entries;
              && m.value == p.manifest && Lawful(r.fold, dest, entries, IsDiff(p.manifest))
              && EndToEnd.Outcome(entries, r.hexHash, r.tar, p.base, p.own) == Some(contents)
              && Sound(IndexOf(entries), r.hexHash, contents)
              && (!verifyOnly ==>
                    && AllDirs(entries) <= IndexOf(entries).Keys && contents.Keys <= IndexOf(entries).Keys
                    && Shows(r.fold, dest, old(volume.nodes), volume.nodes,
                             Tree(IndexOf(entries), AllDirs(entries), AllDirs(entries), contents)))
  {
    hide *;
    p, contents := Point(M.Manifest(M.Header(0, "", "", 0, "", "", "", []), [], M.FooterOf([])), Tar.Stream([], true), None), map[];
    ContainedRefl(r.fold, dest, volume.nodes);
    var loaded;
    loaded, error := Load(r, master, parts, baseParts);
    if loaded.None? {
      return None, error, p, contents;
    }
    var point := loaded.value;
    p := point;
    LoadsLawful(r, master, parts, baseParts, p, dest);
    var target := point.manifest;
    var restorer := new R.Restorer(volume, dest, isRoot, verifyOnly, target.entries, IsDiff(target), r.hexHash, r.tar);
    var e := Restore(restorer, point.base, point.own);
    KeptUnfolds(restorer);
    if e.Some? {
      return None, RestoreFailed(e.value), p, contents;
    }
    contents := restorer.contents;
    OutcomeReadsWhole(r, master, parts, baseParts, p);
    return Some(target), error, p, contents;
  }

  /** Every chunk of both sections of the set was opened, and the data are these. */
  ghost predicate ReadsWhole(r: Reader, master: Bytes, parts: seq<Bytes>, data: Tar.Stream) {
    && |P.Join(parts)| < TWO_TO_THE_63
    && var content := C.ReadWithMaster(r.format, master, P.Join(parts), |parts|);
       content.Some? && data == Tar.Stream(content.value.data, true)
  }

  lemma OutcomeReadsWhole(r: Reader, master: Bytes, parts: seq<Bytes>, baseParts: Option<seq<Bytes>>, p: Point)
    requires Loads(r, master, parts, baseParts, p)
    requires EndToEnd.Outcome(p.manifest.entries, r.hexHash, r.tar, p.base, p.own).Some?
    ensures ReadsWhole(r, master, parts, p.own)
    ensures p.base.Some? ==> baseParts.Some? && ReadsWhole(r, master, baseParts.value, p.base.value)
  {
    hide *;
    LoadsFrom(r, master, parts, baseParts, p);
    OutcomeIsWhole(p.manifest.entries, r, p.base, p.own);
    WholeReadsWhole(r, master, parts, p.own);
    if p.base.Some? {
      WholeReadsWhole(r, master, baseParts.value, p.base.value);
    }
  }

  lemma LoadsFrom(r: Reader, master: Bytes, parts: seq<Bytes>, baseParts: Option<seq<Bytes>>, p: Point)
    requires Loads(r, master, parts, baseParts, p)
    ensures ContentOf(r, master, parts).Some? && p.own == DataOf(ContentOf(r, master, parts).value)
    ensures p.base.Some? ==>
              && baseParts.Some? && ContentOf(r, master, baseParts.value).Some?
              && p.base.value == DataOf(ContentOf(r, master, baseParts.value).value)
  {
    hide HasManifest, ContentOf;
  }

  lemma WholeReadsWhole(r: Reader, master: Bytes, parts: seq<Bytes>, data: Tar.Stream)
    requires data.whole && ContentOf(r, master, parts).Some? && data == DataOf(ContentOf(r, master, parts).value)
    ensures ReadsWhole(r, master, parts, data)
  {
    C.ReadIsReceived(r.format, master, P.Join(parts), |parts|);
    hide C.Receive, C.ReadWithMaster, P.Join;
  }

  lemma OutcomeIsWhole(entries: seq<M.Entry>, r: Reader, base: Option<Tar.Stream>, own: Tar.Stream)
    requires EndToEnd.Outcome(entries, r.hexHash, r.tar, base, own).Some?
    ensures own.whole && (base.Some? ==> base.value.whole)
  {
    var sections := EndToEnd.SectionsOf(IndexOf(entries), r.tar, base, own);
    var n := |sections| - 1;
    assert FeedAll(r.hexHash, sections).Some? && sections[n].1 == Tar.Received(r.tar, own);
    LastIsClean(r.hexHash, sections);
    if base.Some? {
      assert sections[..n][n - 1].1 == Tar.Received(r.tar, base.value);
      LastIsClean(r.hexHash, sections[..n]);
    }
    hide Tar.Parse, FeedAll, IndexOf, R.MissingFrom;
  }

  lemma LastIsClean(digest: Bytes -> string, sections: seq<(Decider, Tar.Section)>)
    requires FeedAll(digest, sections).Some? && |sections| > 0
    ensures sections[|sections| - 1].1.clean && FeedAll(digest, sections[..|sections| - 1]).Some?
  {
    hide TakeAll;
  }

  function IsDiff(m: M.Manifest): bool { m.header.setType == M.SET_TYPE_DIFF }

  lemma KeptUnfolds(r: R.Restorer)
    requires r.Kept()
    ensures Contained(r.volume.fold, r.dest, r.before, r.volume.nodes)
  {
  }

  lemma LoadsLawful(r: Reader, master: Bytes, parts: seq<Bytes>, baseParts: Option<seq<Bytes>>, p: Point, dest: string)
    requires Loads(r, master, parts, baseParts, p) && M.Folding(r.fold) && Paths.PlainPath(dest)
    ensures Lawful(r.fold, dest, p.manifest.entries, IsDiff(p.manifest))
  {
    hide ContentOf, M.ValidEntries, IsLinked, L.Scan, L.Reads, BelongsTo, Paths.PlainPath, M.Folding;
  }

  // -------------------------------------------------------------------- written and restored

  /** A set that was written from a source: the run was not aborted and had no
      unreadable name to record, the manifest has lines of a length that is read
      back, and the parts are those of the split stream. */
  ghost predicate IsBackup(r: Reader, h: H.Header, master: Bytes, splitSize: nat, cfg: Config, nodes: seq<Walk.Node>,
                           mh: M.Header, parts: seq<Bytes>) {
    && cfg.Valid() && cfg.codec == r.tar && cfg.digest == r.hexHash && r.lines.Valid()
    && M.Folding(r.fold) && TreeOk(r.fold, nodes) && HeaderFor(cfg, mh) && BelongsTo(mh, h)
    && VisitAll(cfg, "", nodes, 0).Done? && AllNamed(cfg, "", nodes)
    && L.HasShortLines(r.lines, ManifestOf(mh, VisitAll(cfg, "", nodes, 0).piece))
    && IsSplitSet(r.format, h, master, splitSize, Tar.Archive(cfg.codec, VisitAll(cfg, "", nodes, 0).piece.items),
                  L.Encoded(r.lines, ManifestOf(mh, VisitAll(cfg, "", nodes, 0).piece)), parts)
  }

  /** What the parts of a written set say. */
  lemma BackupIsRead(r: Reader, h: H.Header, master: Bytes, splitSize: nat, cfg: Config, nodes: seq<Walk.Node>,
                     mh: M.Header, parts: seq<Bytes>)
    requires IsBackup(r, h, master, splitSize, cfg, nodes, mh, parts)
    ensures cfg.Valid() && cfg.codec == r.tar && cfg.digest == r.hexHash && VisitAll(cfg, "", nodes, 0).Done?
    ensures M.ValidEntries(r.fold, VisitAll(cfg, "", nodes, 0).piece.entries, cfg.base.Some?)
    ensures h.IsDiff() <==> cfg.base.Some?
    ensures var p := VisitAll(cfg, "", nodes, 0).piece;
            var content := C.Delivery(h, L.Encoded(r.lines, ManifestOf(mh, p)), Tar.Archive(cfg.codec, p.items), true);
            && ContentOf(r, master, parts) == Some(content) && HasManifest(r, content, ManifestOf(mh, p))
            && DataOf(content) == Tar.Written(cfg.codec, p.items)
  {
    hide Config.Valid, L.Lines.Valid, M.Folding, TreeOk, HeaderFor, BelongsTo, VisitAll, Backup, AllNamed, L.HasShortLines,
      IsSplitSet, Tar.Archive, L.Encoded, ManifestOf, ContentOf, HasManifest, M.ValidManifest, M.ValidEntries, P.Join, L.Scan,
      L.Reads, C.ReadWithMaster, C.Receive, H.Header.IsDiff, C.Format.Valid, C.SetBytes, C.SetTrailer, NeverReads;
    var p := VisitAll(cfg, "", nodes, 0).piece;
    var m, data := ManifestOf(mh, p), Tar.Archive(cfg.codec, p.items);
    PartsReadBack(r.format, h, master, splitSize, data, L.Encoded(r.lines, m), parts);
    C.ReadIsReceived(r.format, master, P.Join(parts), |parts|);
    ContentUnfolds(r, master, parts);
    BackupUnfolds(cfg, nodes);
    ManifestValid(cfg, r.fold, mh, nodes);
    L.DecodesEncoded(r.lines, m);
    HasManifestUnfolds(r, C.Delivery(h, L.Encoded(r.lines, m), data, true));
    HeadersAgree(r.fold, cfg, mh, h, p);
  }

  lemma ContentUnfolds(r: Reader, master: Bytes, parts: seq<Bytes>)
    ensures |P.Join(parts)| < TWO_TO_THE_63 ==>
              ContentOf(r, master, parts) == C.Receive(r.format, master, P.Join(parts), |parts|)
  {
    hide P.Join, C.Receive;
  }

  lemma HeadersAgree(fold: char -> char, cfg: Config, mh: M.Header, h: H.Header, p: Piece)
    requires HeaderFor(cfg, mh) && BelongsTo(mh, h) && M.ValidManifest(fold, ManifestOf(mh, p))
    ensures h.IsDiff() <==> cfg.base.Some?
    ensures M.ValidEntries(fold, p.entries, cfg.base.Some?)
    ensures BelongsTo(ManifestOf(mh, p).header, h)
  {
    hide M.ValidEntries;
  }

  /** A differential set and the full set it was written against, and the one
      hypothesis about unmodified files. */
  ghost predicate IsWrittenChain(r: Reader, master: Bytes, h0: H.Header, split0: nat, cfg0: Config, nodes0: seq<Walk.Node>,
                                 mh0: M.Header, parts0: seq<Bytes>, full: Contents,
                                 h1: H.Header, split1: nat, cfg1: Config, nodes1: seq<Walk.Node>, mh1: M.Header,
                                 parts1: seq<Bytes>) {
    && IsBackup(r, h0, master, split0, cfg0, nodes0, mh0, parts0) && cfg0.base.None?
    && IsBackup(r, h1, master, split1, cfg1, nodes1, mh1, parts1)
    && cfg1.base == Some(BaseFiles(VisitAll(cfg0, "", nodes0, 0).piece.entries))
    && IsLinked(h1, h0, r.hexHash(L.Encoded(r.lines, ManifestOf(mh0, VisitAll(cfg0, "", nodes0, 0).piece))))
    && RestoredFrom(cfg0, VisitAll(cfg0, "", nodes0, 0).piece) == Some(full)
    && AllFaithful(cfg1, "", nodes1, full)
  }

  lemma WrittenChainUnfolds(r: Reader, master: Bytes, h0: H.Header, split0: nat, cfg0: Config, nodes0: seq<Walk.Node>,
                            mh0: M.Header, parts0: seq<Bytes>, full: Contents,
                            h1: H.Header, split1: nat, cfg1: Config, nodes1: seq<Walk.Node>, mh1: M.Header,
                            parts1: seq<Bytes>)
    requires IsWrittenChain(r, master, h0, split0, cfg0, nodes0, mh0, parts0, full, h1, split1, cfg1, nodes1, mh1, parts1)
    ensures IsBackup(r, h0, master, split0, cfg0, nodes0, mh0, parts0) && cfg0.base.None?
    ensures IsBackup(r, h1, master, split1, cfg1, nodes1, mh1, parts1)
    ensures VisitAll(cfg0, "", nodes0, 0).Done?
    ensures cfg1.base == Some(BaseFiles(VisitAll(cfg0, "", nodes0, 0).piece.entries))
    ensures IsLinked(h1, h0, r.hexHash(L.Encoded(r.lines, ManifestOf(mh0, VisitAll(cfg0, "", nodes0, 0).piece))))
    ensures RestoredFrom(cfg0, VisitAll(cfg0, "", nodes0, 0).piece) == Some(full)
    ensures AllFaithful(cfg1, "", nodes1, full)
  {
    assert VisitAll(cfg0, "", nodes0, 0).Done?;
    hide IsBackup, VisitAll, BaseFiles, IsLinked, RestoredFrom, AllFaithful, L.Encoded, ManifestOf;
  }

  /** The hypotheses of a chain hold of sets that were written. */
  lemma WrittenIsChain(r: Reader, master: Bytes, h0: H.Header, split0: nat, cfg0: Config, nodes0: seq<Walk.Node>,
                       mh0: M.Header, parts0: seq<Bytes>, full: Contents,
                       h1: H.Header, split1: nat, cfg1: Config, nodes1: seq<Walk.Node>, mh1: M.Header, parts1: seq<Bytes>)
    requires IsWrittenChain(r, master, h0, split0, cfg0, nodes0, mh0, parts0, full, h1, split1, cfg1, nodes1, mh1, parts1)
    ensures IsChain(r.fold, cfg0, nodes0, full, cfg1, nodes1) && cfg0.codec == cfg1.codec == r.tar && cfg1.digest == r.hexHash
  {
    hide *;
    WrittenChainUnfolds(r, master, h0, split0, cfg0, nodes0, mh0, parts0, full, h1, split1, cfg1, nodes1, mh1, parts1);
    BackupIsRead(r, h0, master, split0, cfg0, nodes0, mh0, parts0);
    BackupIsRead(r, h1, master, split1, cfg1, nodes1, mh1, parts1);
    ValidConfigHasCodec(cfg1);
    ChainIs(r.fold, cfg0, nodes0, full, cfg1, nodes1);
  }

  lemma ValidConfigHasCodec(cfg: Config)
    requires cfg.Valid()
    ensures cfg.codec.Valid()
  {
    hide Tar.Codec.Valid, ValidBaseFile, M.IsValidHash;
  }

  /** The part files of a written chain say: this manifest, these streams. */
  lemma ChainLoads(r: Reader, master: Bytes, h0: H.Header, split0: nat, cfg0: Config, nodes0: seq<Walk.Node>,
                   mh0: M.Header, parts0: seq<Bytes>, full: Contents,
                   h1: H.Header, split1: nat, cfg1: Config, nodes1: seq<Walk.Node>, mh1: M.Header, parts1: seq<Bytes>)
    requires IsWrittenChain(r, master, h0, split0, cfg0, nodes0, mh0, parts0, full, h1, split1, cfg1, nodes1, mh1, parts1)
    ensures VisitAll(cfg0, "", nodes0, 0).Done? && VisitAll(cfg1, "", nodes1, 0).Done?
    ensures var p0, p1 := VisitAll(cfg0, "", nodes0, 0).piece, VisitAll(cfg1, "", nodes1, 0).piece;
            Loads(r, master, parts1, Some(parts0),
                  Point(ManifestOf(mh1, p1), Tar.Written(cfg1.codec, p1.items), Some(Tar.Written(cfg0.codec, p0.items))))
  {
    hide *;
    WrittenChainUnfolds(r, master, h0, split0, cfg0, nodes0, mh0, parts0, full, h1, split1, cfg1, nodes1, mh1, parts1);
    BackupIsRead(r, h0, master, split0, cfg0, nodes0, mh0, parts0);
    BackupIsRead(r, h1, master, split1, cfg1, nodes1, mh1, parts1);
    var p0, p1 := VisitAll(cfg0, "", nodes0, 0).piece, VisitAll(cfg1, "", nodes1, 0).piece;
    DiffLoads(r, master, parts1, parts0, ContentOf(r, master, parts1).value, ContentOf(r, master, parts0).value,
              ManifestOf(mh1, p1), ManifestOf(mh0, p0));
  }

  lemma DiffLoads(r: Reader, master: Bytes, parts: seq<Bytes>, baseParts: seq<Bytes>, own: C.Delivery, base: C.Delivery,
                  m: M.Manifest, baseManifest: M.Manifest)
    requires ContentOf(r, master, parts) == Some(own) && ContentOf(r, master, baseParts) == Some(base)
    requires own.header.IsDiff() && HasManifest(r, own, m) && HasManifest(r, base, baseManifest)
    requires IsLinked(own.header, base.header, r.hexHash(base.man))
    ensures Loads(r, master, parts, Some(baseParts), Point(m, DataOf(own), Some(DataOf(base))))
  {
    hide ContentOf, HasManifest, IsLinked;
  }

  lemma FullLoads(r: Reader, master: Bytes, parts: seq<Bytes>, own: C.Delivery, m: M.Manifest)
    requires ContentOf(r, master, parts) == Some(own) && !own.header.IsDiff() && HasManifest(r, own, m)
    ensures Loads(r, master, parts, None, Point(m, DataOf(own), None))
  {
    hide ContentOf, HasManifest, IsLinked;
  }

  lemma SectionsOfManifest(mh: M.Header, p: Piece)
    ensures ManifestOf(mh, p).entries == p.entries
  {
  }

  /** From a source directory and back: the part files of a full backup restored
      into an empty destination. It fails only when the volume refuses an
      operation or the destination is the root of a volume; otherwise the
      destination holds what the run has seen of the source, and the state of the
      source exactly when every stored file is whole, no recorded directory was gone
      at its listing, and no time is zero. */
  method RestoreBackup(r: Reader, master: Bytes, parts: seq<Bytes>, volume: Volume, dest: string, isRoot: bool,
                       ghost h: H.Header, ghost split: nat, ghost cfg: Config, ghost nodes: seq<Walk.Node>, ghost mh: M.Header)
    returns (m: Option<M.Manifest>, error: ReadError)
    requires IsBackup(r, h, master, split, cfg, nodes, mh, parts) && cfg.base.None?
    requires volume.fold == r.fold && M.Folding(r.fold) && Paths.PlainPath(dest) && IsEmpty(r.fold, dest, volume.nodes)
    modifies volume
    ensures Contained(r.fold, dest, old(volume.nodes), volume.nodes)
    ensures || m.Some? || (error == RestoreFailed(VolumeFailed(FileSystem.Refused)) && volume.refused)
            || (error == RestoreFailed(BadPath) && isRoot)
    ensures m.Some? ==> IsRestored(r.fold, dest, volume.nodes, cfg, nodes, map[])
  {
    hide *;
    BackupIsRead(r, h, master, split, cfg, nodes, mh, parts);
    ghost var piece := VisitAll(cfg, "", nodes, 0).piece;
    ghost var q := Point(ManifestOf(mh, piece), Tar.Written(cfg.codec, piece.items), None);
    FullLoads(r, master, parts, ContentOf(r, master, parts).value, q.manifest);
    SectionsOfManifest(mh, piece);
    FullGives(r.fold, cfg, nodes);
    GivesFolds(cfg, nodes, map[], piece.entries, cfg.codec, None, q.own);
    ghost var p, contents, before := q, map[], volume.nodes;
    m, error, p, contents := Read(r, master, parts, None, volume, dest, isRoot, false);
    if m.Some? || error.RestoreFailed? {
      LoadsOne(r, master, parts, None, p, q);
    }
    if m.Some? {
      GivenIsRestored(r.fold, dest, piece.entries, IsDiff(q.manifest), before, volume.nodes, contents, cfg, nodes, map[],
                      cfg.codec, None, q.own);
    } else {
      ConflictsUnfolds(error.failure);
      ErrorKinds(error.failure);
    }
  }

  /** The same for a differential and its full backup, and the later source. */
  method RestoreChain(r: Reader, master: Bytes, parts1: seq<Bytes>, parts0: seq<Bytes>, volume: Volume, dest: string,
                      isRoot: bool, ghost h0: H.Header, ghost split0: nat, ghost cfg0: Config, ghost nodes0: seq<Walk.Node>,
                      ghost mh0: M.Header, ghost full: Contents, ghost h1: H.Header, ghost split1: nat, ghost cfg1: Config,
                      ghost nodes1: seq<Walk.Node>, ghost mh1: M.Header)
    returns (m: Option<M.Manifest>, error: ReadError)
    requires IsWrittenChain(r, master, h0, split0, cfg0, nodes0, mh0, parts0, full, h1, split1, cfg1, nodes1, mh1, parts1)
    requires volume.fold == r.fold && M.Folding(r.fold) && Paths.PlainPath(dest) && IsEmpty(r.fold, dest, volume.nodes)
    modifies volume
    ensures Contained(r.fold, dest, old(volume.nodes), volume.nodes)
    ensures || m.Some? || (error == RestoreFailed(VolumeFailed(FileSystem.Refused)) && volume.refused)
            || (error == RestoreFailed(BadPath) && isRoot)
    ensures m.Some? ==> IsRestored(r.fold, dest, volume.nodes, cfg1, nodes1, full)
  {
    hide *;
    ChainLoads(r, master, h0, split0, cfg0, nodes0, mh0, parts0, full, h1, split1, cfg1, nodes1, mh1, parts1);
    WrittenIsChain(r, master, h0, split0, cfg0, nodes0, mh0, parts0, full, h1, split1, cfg1, nodes1, mh1, parts1);
    ghost var p0, p1 := VisitAll(cfg0, "", nodes0, 0).piece, VisitAll(cfg1, "", nodes1, 0).piece;
    ghost var q := Point(ManifestOf(mh1, p1), Tar.Written(cfg1.codec, p1.items), Some(Tar.Written(cfg0.codec, p0.items)));
    SectionsOfManifest(mh1, p1);
    ChainGives(r.fold, cfg0, nodes0, full, cfg1, nodes1);
    GivesFolds(cfg1, nodes1, full, p1.entries, cfg1.codec, q.base, q.own);
    ghost var p, contents, before := q, map[], volume.nodes;
    m, error, p, contents := Read(r, master, parts1, Some(parts0), volume, dest, isRoot, false);
    if m.Some? || error.RestoreFailed? {
      LoadsOne(r, master, parts1, Some(parts0), p, q);
    }
    if m.Some? {
      GivenIsRestored(r.fold, dest, p1.entries, IsDiff(q.manifest), before, volume.nodes, contents, cfg1, nodes1, full,
                      cfg1.codec, q.base, q.own);
    } else {
      ConflictsUnfolds(error.failure);
      ErrorKinds(error.failure);
    }
  }
}
