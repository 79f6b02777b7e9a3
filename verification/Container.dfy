/** One backup set as a byte stream: header, data section, manifest section, trailer. */
module Container {
  import opened Wrappers
  import opened Binary
  import opened Crypto
  import opened Io
  import CS = ChunkStream
  import H = SetHeader
  import T = Trailer

  const SECTION_DATA: byte := 1
  const SECTION_MANIFEST: byte := 2
  const INFO_DATA: string := "RestoreSafe v2 data"
  const INFO_MANIFEST: string := "RestoreSafe v2 manifest"

  /** The primitives, the header codec and the chunk size of the format. */
  datatype Format = Format(suite: Suite, json: H.Json, chunkSize: nat) {
    ghost predicate Valid() {
      suite.Valid() && json.Sound() && 0 < chunkSize && chunkSize + TAG_LEN < TWO_TO_THE_32
    }

    function SectionAad(headerHash: Bytes, section: byte): Bytes { headerHash + [section] }

    /** The data and manifest streams of the set with this encoded header, under given keys. */
    function DataStream(keys: SectionKeys, encoded: Bytes): CS.Stream {
      CS.Stream(suite, keys.data, SectionAad(suite.sha256(encoded), SECTION_DATA), chunkSize)
    }

    function ManifestStream(keys: SectionKeys, encoded: Bytes): CS.Stream {
      CS.Stream(suite, keys.manifest, SectionAad(suite.sha256(encoded), SECTION_MANIFEST), chunkSize)
    }

    /** DeriveSectionKeys. */
    function DeriveKeys(master: Bytes, encoded: Bytes): Option<SectionKeys> {
      if |master| != KEY_LEN then None
      else Some(SectionKeys(suite.hkdf(master, suite.sha256(encoded), INFO_DATA),
                            suite.hkdf(master, suite.sha256(encoded), INFO_MANIFEST)))
    }
  }

  datatype SectionKeys = SectionKeys(data: Bytes, manifest: Bytes)

  // -------------------------------------------------------------------------- writing

  function PartCount(total: nat, splitSize: int): int {
    if splitSize > 0 then (total + splitSize - 1) / splitSize else 1
  }

  function TrailerFor(headerLen: nat, dataLen: nat, manifestLen: nat, splitSize: int): T.Trailer {
    T.Trailer(headerLen, dataLen, headerLen + dataLen, manifestLen,
              PartCount(headerLen + dataLen + manifestLen + T.TRAILER_LEN, splitSize))
  }

  /** The two encrypted sections of a set. */
  function Sections(f: Format, keys: SectionKeys, encoded: Bytes, data: Bytes, man: Bytes): (Bytes, Bytes)
    requires f.chunkSize > 0
  {
    (CS.Encrypted(f.DataStream(keys, encoded), data), CS.Encrypted(f.ManifestStream(keys, encoded), man))
  }

  /** The trailer of that stream. */
  function StreamTrailer(f: Format, keys: SectionKeys, encoded: Bytes, splitSize: int, data: Bytes, man: Bytes): T.Trailer
    requires f.chunkSize > 0
  {
    var (d, m) := Sections(f, keys, encoded, data, man);
    TrailerFor(|encoded|, |d|, |m|, splitSize)
  }

  /** The stream of a set whose header is encoded as `encoded`. */
  function SetStream(f: Format, keys: SectionKeys, encoded: Bytes, splitSize: int, data: Bytes, man: Bytes): Bytes
    requires f.chunkSize > 0
  {
    var (d, m) := Sections(f, keys, encoded, data, man);
    encoded + d + m + T.Encode(f.suite.sha256, StreamTrailer(f, keys, encoded, splitSize, data, man))
  }

  /** What container.Write writes, None when the header or the key is refused. */
  function SetBytes(f: Format, h: H.Header, master: Bytes, splitSize: int, data: Bytes, man: Bytes): Option<Bytes>
    requires f.chunkSize > 0
  {
    match H.Encode(f.json, h)
    case None => None
    case Some(encoded) =>
      match f.DeriveKeys(master, encoded)
      case None => None
      case Some(keys) => Some(SetStream(f, keys, encoded, splitSize, data, man))
  }

  function SetTrailer(f: Format, h: H.Header, master: Bytes, splitSize: int, data: Bytes, man: Bytes): T.Trailer
    requires f.chunkSize > 0 && SetBytes(f, h, master, splitSize, data, man).Some?
  {
    var encoded := H.Encode(f.json, h).value;
    StreamTrailer(f, f.DeriveKeys(master, encoded).value, encoded, splitSize, data, man)
  }

  method WriteAll(dst: Sink, p: Bytes) returns (ok: bool)
    modifies dst
    ensures ok ==> dst.data == old(dst.data) + p
    ensures old(dst.data) <= dst.data <= old(dst.data) + p
    ensures old(dst.broken) ==> dst.broken
    ensures !ok ==> dst.broken
  {
    var n;
    n, ok := dst.Write(p);
    assert p[..|p|] == p;
  }

  /** The data section, then the manifest section; their lengths on success. */
  method WriteSections(f: Format, keys: SectionKeys, encoded: Bytes, dst: Sink, data: Source, man: Source)
    returns (lengths: Option<(nat, nat)>)
    requires f.chunkSize > 0 && data != man && |keys.data| == KEY_LEN && |keys.manifest| == KEY_LEN
    modifies dst, data, man
    ensures lengths.Some? ==> !data.fails && !man.fails
    ensures lengths.Some? ==>
            var (d, m) := Sections(f, keys, encoded, old(data.rest), old(man.rest));
            dst.data == old(dst.data) + d + m && lengths.value == (|d|, |m|)
    ensures var (d, m) := Sections(f, keys, encoded, old(data.rest), old(man.rest));
            old(dst.data) <= dst.data <= old(dst.data) + d + m
    ensures lengths.None? ==> dst.broken || data.fails || man.fails
    ensures old(dst.broken) ==> dst.broken
  {
    hide CS.Encrypted;
    var dataOffset := |dst.data|;
    var outcome := CS.EncryptStream(dst, data, f.DataStream(keys, encoded));
    if outcome != CS.Ok {
      return None;
    }
    var manifestOffset := |dst.data|;
    outcome := CS.EncryptStream(dst, man, f.ManifestStream(keys, encoded));
    if outcome != CS.Ok {
      return None;
    }
    return Some((manifestOffset - dataOffset, |dst.data| - manifestOffset));
  }

  /** container.Write once the header is encoded and the keys are derived. */
  method WriteStream(f: Format, keys: SectionKeys, encoded: Bytes, dst: Sink, splitSize: int, data: Source, man: Source)
    returns (trailer: Option<T.Trailer>)
    requires f.chunkSize > 0 && data != man && |keys.data| == KEY_LEN && |keys.manifest| == KEY_LEN
    modifies dst, data, man
    ensures trailer.Some? ==>
            && !data.fails && !man.fails
            && dst.data == old(dst.data) + SetStream(f, keys, encoded, splitSize, old(data.rest), old(man.rest))
            && trailer.value == StreamTrailer(f, keys, encoded, splitSize, old(data.rest), old(man.rest))
    ensures old(dst.data) <= dst.data <=
            old(dst.data) + SetStream(f, keys, encoded, splitSize, old(data.rest), old(man.rest))
    ensures trailer.None? ==> dst.broken || data.fails || man.fails
  {
    hide Sections, TrailerFor, T.Encode;
    ghost var p, q, before := data.rest, man.rest, dst.data;
    ghost var (d, m) := Sections(f, keys, encoded, p, q);
    ghost var end := T.Encode(f.suite.sha256, StreamTrailer(f, keys, encoded, splitSize, p, q));
    FourPieces(before, encoded, d, m, end);
    var ok := WriteAll(dst, encoded);
    if !ok {
      return None;
    }
    var lengths := WriteSections(f, keys, encoded, dst, data, man);
    if lengths.None? {
      return None;
    }
    var t := TrailerFor(|encoded|, lengths.value.0, lengths.value.1, splitSize);
    ok := WriteAll(dst, T.Encode(f.suite.sha256, t));
    if !ok {
      return None;
    }
    return Some(t);
  }

  lemma FourPieces(a: Bytes, b: Bytes, d: Bytes, m: Bytes, e: Bytes)
    ensures a + b + d + m + e == a + (b + d + m + e)
    ensures a + b <= a + (b + d + m + e) && a + b + d + m <= a + (b + d + m + e)
  {
    assert a + b + d + m + e == a + (b + d + m + e);
  }

  /** container.Write. The manifest source fails when manifestFn returned an error. */
  method WriteSet(f: Format, dst: Sink, h: H.Header, master: Bytes, splitSize: int, data: Source, man: Source)
    returns (trailer: Option<T.Trailer>)
    requires f.Valid() && data != man
    modifies dst, data, man
    ensures trailer.Some? ==>
            && !data.fails && !man.fails
            && SetBytes(f, h, master, splitSize, old(data.rest), old(man.rest)).Some?
            && dst.data == old(dst.data) + SetBytes(f, h, master, splitSize, old(data.rest), old(man.rest)).value
            && trailer.value == SetTrailer(f, h, master, splitSize, old(data.rest), old(man.rest))
    ensures var set_ := SetBytes(f, h, master, splitSize, old(data.rest), old(man.rest));
            if set_.None? then dst.data == old(dst.data) else old(dst.data) <= dst.data <= old(dst.data) + set_.value
    ensures trailer.None? ==>
            || dst.broken || data.fails || man.fails
            || SetBytes(f, h, master, splitSize, old(data.rest), old(man.rest)).None?
  {
    hide SetStream, StreamTrailer, H.Encode;
    var encoded := H.Encode(f.json, h);
    if encoded.None? {
      return None;
    }
    var keys := f.DeriveKeys(master, encoded.value);
    if keys.None? {
      return None;
    }
    trailer := WriteStream(f, keys.value, encoded.value, dst, splitSize, data, man);
  }

  // -------------------------------------------------------------------------- reading

  datatype OpenedSet = OpenedSet(header: H.Header, encoded: Bytes, trailer: T.Trailer)

  datatype OpenError = BadHeader(header: H.HeaderError) | Incomplete(reason: T.Incomplete)

  datatype OpenResult = Opened(set_: OpenedSet) | OpenFailed(error: OpenError)

  /** readStructure: header and trailer of a stream held in so many part files. */
  function Open(f: Format, s: Bytes, parts: int): OpenResult {
    match H.ReadHeader(f.json, s)
    case Unreadable(e) => OpenFailed(BadHeader(e))
    case Read(h, encoded) =>
      if |s| < |encoded| + T.TRAILER_LEN then OpenFailed(Incomplete(T.TooShort))
      else
        match T.Decode(f.suite.sha256, s[|s| - T.TRAILER_LEN..])
        case Refused(reason) => OpenFailed(Incomplete(reason))
        case Decoded(t) =>
          match T.CheckStructure(t, |encoded|, |s|, parts)
          case Some(reason) => OpenFailed(Incomplete(reason))
          case None => Opened(OpenedSet(h, encoded, t))
  }

  /** What is known of every opened set: its sections tile the stream. */
  lemma OpenedTiles(f: Format, s: Bytes, parts: int)
    requires Open(f, s, parts).Opened? && |s| < TWO_TO_THE_63
    ensures var o := Open(f, s, parts).set_;
            && H.ReadHeader(f.json, s) == H.Read(o.header, o.encoded)
            && o.encoded <= s && T.Tiles(o.trailer, |o.encoded|, |s|, parts)
  {
    var o := Open(f, s, parts).set_;
    H.ReadIsPrefixStable(f.json, s, s);
    T.DecodedInRange(f.suite.sha256, s[|s| - T.TRAILER_LEN..]);
    T.ChecksTile(o.trailer, |o.encoded|, |s|, parts);
    hide H.ReadHeader, T.Decode, T.CheckStructure;
  }

  function DataSection(s: Bytes, t: T.Trailer): Bytes
    requires 0 <= t.dataOffset && 0 <= t.dataLength && t.dataOffset + t.dataLength <= |s|
  {
    s[t.dataOffset..t.dataOffset + t.dataLength]
  }

  function ManifestSection(s: Bytes, t: T.Trailer): Bytes
    requires 0 <= t.manifestOffset && 0 <= t.manifestLength && t.manifestOffset + t.manifestLength <= |s|
  {
    s[t.manifestOffset..t.manifestOffset + t.manifestLength]
  }

  /** Everything a complete read of a set gives: header, data and manifest plaintext. */
  datatype Content = Content(header: H.Header, data: Bytes, man: Bytes)

  /** Open, DecryptData and the decryption of ReadManifest; None when one of them fails. */
  function ReadSet(f: Format, keys: SectionKeys, s: Bytes, parts: int): Option<Content>
    requires |s| < TWO_TO_THE_63
  {
    match Open(f, s, parts)
    case OpenFailed(_) => None
    case Opened(o) =>
      OpenedTiles(f, s, parts);
      var d := CS.Decrypted(f.DataStream(keys, o.encoded), DataSection(s, o.trailer));
      var m := CS.Decrypted(f.ManifestStream(keys, o.encoded), ManifestSection(s, o.trailer));
      if d.outcome == CS.Ok && m.outcome == CS.Ok then Some(Content(o.header, d.output, m.output)) else None
  }

  /** The same, with the section keys derived from the master key of the key set. */
  function ReadWithMaster(f: Format, master: Bytes, s: Bytes, parts: int): Option<Content>
    requires |s| < TWO_TO_THE_63
  {
    match Open(f, s, parts)
    case OpenFailed(_) => None
    case Opened(o) =>
      match f.DeriveKeys(master, o.encoded)
      case None => None
      case Some(keys) => ReadSet(f, keys, s, parts)
  }

  /** What a restore gets of a set: its manifest text, and what decrypting the data
      section gives before it ends, whole or with an error. */
  datatype Delivery = Delivery(header: H.Header, man: Bytes, data: Bytes, whole: bool)

  /** Open and the decryption of ReadManifest, then DecryptData; None when one of
      the former fails. */
  function Receive(f: Format, master: Bytes, s: Bytes, parts: int): Option<Delivery>
    requires |s| < TWO_TO_THE_63
  {
    match Open(f, s, parts)
    case OpenFailed(_) => None
    case Opened(o) =>
      match f.DeriveKeys(master, o.encoded)
      case None => None
      case Some(keys) =>
        OpenedTiles(f, s, parts);
        var m := CS.Decrypted(f.ManifestStream(keys, o.encoded), ManifestSection(s, o.trailer));
        var d := CS.Decrypted(f.DataStream(keys, o.encoded), DataSection(s, o.trailer));
        if m.outcome == CS.Ok then Some(Delivery(o.header, m.output, d.output, d.outcome == CS.Ok)) else None
  }

  // ------------------------------------------------------------------------- theorems

  /** A set arrives whole exactly when it can be read whole. */
  lemma ReadIsReceived(f: Format, master: Bytes, s: Bytes, parts: int)
    requires |s| < TWO_TO_THE_63
    ensures var (read, received) := (ReadWithMaster(f, master, s, parts), Receive(f, master, s, parts));
            && (read.Some? <==> received.Some? && received.value.whole)
            && (read.Some? ==> received == Some(Delivery(read.value.header, read.value.man, read.value.data, true)))
  {
    hide Open, CS.Decrypted, DataSection, ManifestSection;
  }

  lemma SectionLengths(f: Format, keys: SectionKeys, encoded: Bytes, data: Bytes, man: Bytes)
    requires f.Valid()
    ensures var (d, m) := Sections(f, keys, encoded, data, man);
            && |d| == |data| + 21 * (|data| / f.chunkSize + 1) && |d| >= 21
            && |m| == |man| + 21 * (|man| / f.chunkSize + 1) && |m| >= 21
  {
    CS.EncodedLength(f.DataStream(keys, encoded), 0, data);
    CS.EncodedLength(f.ManifestStream(keys, encoded), 0, man);
    hide CS.Encoded;
  }

  lemma PartCountRange(total: nat, splitSize: int)
    requires 0 < total
    ensures 1 <= PartCount(total, splitSize) <= total
  {
    if splitSize > 0 {
      var q := (total + splitSize - 1) / splitSize;
      assert splitSize * q <= total + splitSize - 1 < splitSize * q + splitSize;
      MulBounds(splitSize, q);
      if q > total {
        MulBounds(splitSize, q - total);
        assert splitSize * q >= splitSize * total + splitSize;
        MulBounds(total, splitSize);
      }
    }
  }

  lemma TrailerFits(headerLen: nat, dataLen: nat, manifestLen: nat, splitSize: int)
    requires dataLen >= 21 && manifestLen >= 21
    requires headerLen + dataLen + manifestLen + T.TRAILER_LEN < TWO_TO_THE_63
    requires TrailerFor(headerLen, dataLen, manifestLen, splitSize).partCount < TWO_TO_THE_32
    ensures var t := TrailerFor(headerLen, dataLen, manifestLen, splitSize);
            && t.InRange()
            && T.Tiles(t, headerLen, headerLen + dataLen + manifestLen + T.TRAILER_LEN, t.partCount)
  {
    PartCountRange(headerLen + dataLen + manifestLen + T.TRAILER_LEN, splitSize);
  }

  /** Where header, sections and trailer of a written stream lie. */
  lemma StreamLayout(f: Format, keys: SectionKeys, encoded: Bytes, splitSize: int, data: Bytes, man: Bytes)
    requires f.Valid()
    ensures var (d, m) := Sections(f, keys, encoded, data, man);
            var t := StreamTrailer(f, keys, encoded, splitSize, data, man);
            var s := SetStream(f, keys, encoded, splitSize, data, man);
            var tail := T.Encode(f.suite.sha256, t);
            && |tail| == T.TRAILER_LEN && |T.Fields(t)| == 48 && |f.suite.sha256(T.Fields(t))| == 32
            && |s| == |encoded| + |d| + |m| + T.TRAILER_LEN
            && s == encoded + (d + m + tail) && s[|s| - T.TRAILER_LEN..] == tail
            && DataSection(s, t) == d && ManifestSection(s, t) == m
  {
    hide Sections, T.Fields;
    var (d, m) := Sections(f, keys, encoded, data, man);
    var t := StreamTrailer(f, keys, encoded, splitSize, data, man);
    var s := SetStream(f, keys, encoded, splitSize, data, man);
    var tail := T.Encode(f.suite.sha256, t);
    assert s == encoded + (d + m + tail);
  }

  lemma OpenUnfolds(f: Format, s: Bytes, h: H.Header, encoded: Bytes, t: T.Trailer)
    requires H.ReadHeader(f.json, s) == H.Read(h, encoded) && |s| >= |encoded| + T.TRAILER_LEN
    requires T.Decode(f.suite.sha256, s[|s| - T.TRAILER_LEN..]) == T.Decoded(t)
    requires T.CheckStructure(t, |encoded|, |s|, t.partCount).None?
    ensures Open(f, s, t.partCount) == Opened(OpenedSet(h, encoded, t))
  {
  }

  lemma StreamOpens(f: Format, keys: SectionKeys, h: H.Header, encoded: Bytes, splitSize: int, data: Bytes, man: Bytes)
    requires f.Valid() && H.Encode(f.json, h) == Some(encoded)
    requires |SetStream(f, keys, encoded, splitSize, data, man)| < TWO_TO_THE_63
    requires StreamTrailer(f, keys, encoded, splitSize, data, man).partCount < TWO_TO_THE_32
    ensures var t := StreamTrailer(f, keys, encoded, splitSize, data, man);
            var s := SetStream(f, keys, encoded, splitSize, data, man);
            && t.partCount == PartCount(|s|, splitSize)
            && Open(f, s, t.partCount) == Opened(OpenedSet(h, encoded, t))
  {
    hide Sections, SetStream, T.Encode, T.Decode, T.Fields, T.CheckStructure, H.Encode, H.ReadHeader, Open, DataSection, ManifestSection;
    var (d, m) := Sections(f, keys, encoded, data, man);
    var t := StreamTrailer(f, keys, encoded, splitSize, data, man);
    var s := SetStream(f, keys, encoded, splitSize, data, man);
    StreamLayout(f, keys, encoded, splitSize, data, man);
    SectionLengths(f, keys, encoded, data, man);
    TrailerFits(|encoded|, |d|, |m|, splitSize);
    T.DecodeEncode(f.suite.sha256, t);
    H.ReadEncoded(f.json, h, d + m + T.Encode(f.suite.sha256, t));
    H.ReadIsPrefixStable(f.json, s, s);
    T.ChecksTile(t, |encoded|, |s|, t.partCount);
    OpenUnfolds(f, s, h, encoded, t);
  }

  lemma ReadSetUnfolds(f: Format, keys: SectionKeys, s: Bytes, parts: int, o: OpenedSet, data: Bytes, man: Bytes)
    requires |s| < TWO_TO_THE_63 && Open(f, s, parts) == Opened(o)
    requires 0 <= o.trailer.dataOffset && 0 <= o.trailer.dataLength && 0 <= o.trailer.manifestLength
    requires 0 <= o.trailer.manifestOffset == o.trailer.dataOffset + o.trailer.dataLength
    requires o.trailer.manifestOffset + o.trailer.manifestLength <= |s|
    requires CS.Decrypted(f.DataStream(keys, o.encoded), DataSection(s, o.trailer)) == CS.Decryption(data, CS.Ok)
    requires CS.Decrypted(f.ManifestStream(keys, o.encoded), ManifestSection(s, o.trailer)) == CS.Decryption(man, CS.Ok)
    ensures ReadSet(f, keys, s, parts) == Some(Content(o.header, data, man))
  {
    hide Open, CS.Decrypted;
  }

  lemma StreamRoundTrip(f: Format, keys: SectionKeys, h: H.Header, encoded: Bytes, splitSize: int, data: Bytes, man: Bytes)
    requires f.Valid() && H.Encode(f.json, h) == Some(encoded) && |keys.data| == KEY_LEN && |keys.manifest| == KEY_LEN
    requires |SetStream(f, keys, encoded, splitSize, data, man)| < TWO_TO_THE_63
    requires StreamTrailer(f, keys, encoded, splitSize, data, man).partCount < TWO_TO_THE_32
    ensures var t := StreamTrailer(f, keys, encoded, splitSize, data, man);
            ReadSet(f, keys, SetStream(f, keys, encoded, splitSize, data, man), t.partCount) == Some(Content(h, data, man))
  {
    var s, t := SetStream(f, keys, encoded, splitSize, data, man), StreamTrailer(f, keys, encoded, splitSize, data, man);
    StreamOpens(f, keys, h, encoded, splitSize, data, man);
    StreamLayout(f, keys, encoded, splitSize, data, man);
    CS.DecodeEncode(f.DataStream(keys, encoded), 0, data);
    CS.DecodeEncode(f.ManifestStream(keys, encoded), 0, man);
    hide Open, SetStream, H.Encode, CS.Encoded, CS.Decoded, T.Encode, ReadSet, DataSection, ManifestSection, T.Fields;
    ReadSetUnfolds(f, keys, s, t.partCount, OpenedSet(h, encoded, t), data, man);
  }

  /** Writing a set and reading it back, given as many parts as its trailer
      records, returns header, data and manifest unchanged. */
  lemma SetRoundTrip(f: Format, h: H.Header, master: Bytes, splitSize: int, data: Bytes, man: Bytes)
    requires f.Valid() && SetBytes(f, h, master, splitSize, data, man).Some?
    requires |SetBytes(f, h, master, splitSize, data, man).value| < TWO_TO_THE_63
    requires SetTrailer(f, h, master, splitSize, data, man).partCount < TWO_TO_THE_32
    ensures var s := SetBytes(f, h, master, splitSize, data, man).value;
            && SetTrailer(f, h, master, splitSize, data, man).partCount == PartCount(|s|, splitSize)
            && ReadWithMaster(f, master, s, PartCount(|s|, splitSize)) == Some(Content(h, data, man))
  {
    hide Open, SetStream, StreamTrailer, H.Encode, ReadSet;
    var encoded := H.Encode(f.json, h).value;
    var keys := f.DeriveKeys(master, encoded).value;
    StreamOpens(f, keys, h, encoded, splitSize, data, man);
    StreamRoundTrip(f, keys, h, encoded, splitSize, data, man);
  }

  lemma EitherPrefix(t: Bytes, from: nat, a: Bytes, b: Bytes)
    requires from <= |t| && a <= t[from..] && b <= t[from..]
    ensures a <= b || b <= a
  {
  }

  lemma StreamsAtSamePlace(st: CS.Stream, st': CS.Stream, t: Bytes, from: nat, a: Bytes, b: Bytes)
    requires st.chunkSize == st'.chunkSize && from <= |t| && a <= t[from..] && b <= t[from..]
    requires CS.Decrypted(st, a).outcome == CS.Ok && CS.Decrypted(st', b).outcome == CS.Ok
    ensures a == b
  {
    EitherPrefix(t, from, a, b);
    if a <= b {
      CS.StreamsPrefixFree(st, st', a, b);
    } else {
      CS.StreamsPrefixFree(st', st, b, a);
    }
  }

  /** What a complete read establishes about a stream. */
  lemma ReadSetParts(f: Format, keys: SectionKeys, s: Bytes, parts: int) returns (encoded: Bytes, d: Bytes, m: Bytes)
    requires |s| < TWO_TO_THE_63 && ReadSet(f, keys, s, parts).Some?
    ensures H.ReadHeader(f.json, s).Read? && H.ReadHeader(f.json, s).encoded == encoded && encoded <= s
    ensures CS.Decrypted(f.DataStream(keys, encoded), d).outcome == CS.Ok
    ensures CS.Decrypted(f.ManifestStream(keys, encoded), m).outcome == CS.Ok
    ensures |s| == |encoded| + |d| + |m| + T.TRAILER_LEN
    ensures d <= s[|encoded|..] && m <= s[|encoded| + |d|..]
  {
    OpenedTiles(f, s, parts);
    var o := Open(f, s, parts).set_;
    encoded, d, m := o.encoded, DataSection(s, o.trailer), ManifestSection(s, o.trailer);
    hide Open, H.ReadHeader, CS.Decrypted;
  }

  /** No set is a strict prefix of another: when a stream and a longer one both
      pass Open, DecryptData and ReadManifest, under any keys and any numbers of
      part files, they are the same stream. Nothing is assumed of the ciphertext:
      a false trailer inside it gains nothing. */
  lemma SetsPrefixFree(f: Format, keys: SectionKeys, keys': SectionKeys, s: Bytes, t: Bytes, parts: int, parts': int)
    requires s <= t && |t| < TWO_TO_THE_63
    requires ReadSet(f, keys, s, parts).Some? && ReadSet(f, keys', t, parts').Some?
    ensures s == t
  {
    hide ReadSet, H.ReadHeader, CS.Decrypted;
    var e, d, m := ReadSetParts(f, keys, s, parts);
    var e', d', m' := ReadSetParts(f, keys', t, parts');
    H.ReadIsPrefixStable(f.json, s, t);
    assert e == e' && d <= t[|e|..];
    StreamsAtSamePlace(f.DataStream(keys, e), f.DataStream(keys', e), t, |e|, d, d');
    assert m <= t[|e| + |d|..];
    StreamsAtSamePlace(f.ManifestStream(keys, e), f.ManifestStream(keys', e), t, |e| + |d|, m, m');
  }

  /** A set that lost any bytes at its end never passes a complete read, whatever
      its ciphertext looks like and however many part files are left. */
  lemma TruncatedSetRefused(f: Format, h: H.Header, master: Bytes, splitSize: int, data: Bytes, man: Bytes,
                            keys: SectionKeys, n: nat, parts: int)
    requires f.Valid() && SetBytes(f, h, master, splitSize, data, man).Some?
    requires n < |SetBytes(f, h, master, splitSize, data, man).value| < TWO_TO_THE_63
    requires SetTrailer(f, h, master, splitSize, data, man).partCount < TWO_TO_THE_32
    ensures ReadSet(f, keys, SetBytes(f, h, master, splitSize, data, man).value[..n], parts).None?
  {
    var s := SetBytes(f, h, master, splitSize, data, man).value;
    SetRoundTrip(f, h, master, splitSize, data, man);
    hide ReadSet, SetBytes, SetTrailer, Open;
    if ReadSet(f, keys, s[..n], parts).Some? {
      var count := PartCount(|s|, splitSize);
      SetsPrefixFree(f, keys, f.DeriveKeys(master, Open(f, s, count).set_.encoded).value, s[..n], s, parts, count);
    }
  }

  /** The last bytes of the stream are a trailer that decodes, and its sections tile
      the stream behind a header of this length. */
  predicate EndsInTrailer(f: Format, s: Bytes, headerLen: nat, parts: int) {
    && |s| >= headerLen + T.TRAILER_LEN
    && var decoding := T.Decode(f.suite.sha256, s[|s| - T.TRAILER_LEN..]);
       decoding.Decoded? && T.Tiles(decoding.trailer, headerLen, |s|, parts)
  }

  lemma OpensIff(f: Format, s: Bytes, parts: int, h: H.Header, encoded: Bytes)
    requires H.ReadHeader(f.json, s) == H.Read(h, encoded) && |s| < TWO_TO_THE_63
    ensures Open(f, s, parts).Opened? <==> EndsInTrailer(f, s, |encoded|, parts)
    ensures Open(f, s, parts).Opened? ==> Open(f, s, parts).set_.header == h
  {
    H.ReadIsPrefixStable(f.json, s, s);
    if |s| >= |encoded| + T.TRAILER_LEN {
      var decoding := T.Decode(f.suite.sha256, s[|s| - T.TRAILER_LEN..]);
      if decoding.Decoded? {
        T.DecodedInRange(f.suite.sha256, s[|s| - T.TRAILER_LEN..]);
        T.ChecksTile(decoding.trailer, |encoded|, |s|, parts);
      }
    }
    hide H.ReadHeader, T.Decode, T.CheckStructure, T.Tiles;
  }

  /** The structural check of a set that lost bytes at its end: it passes exactly when
      the bytes it now ends with happen to be a trailer that fits what is left. */
  lemma CutSetOpens(f: Format, h: H.Header, master: Bytes, splitSize: int, data: Bytes, man: Bytes, n: nat, parts: int)
    requires f.Valid() && SetBytes(f, h, master, splitSize, data, man).Some?
    requires n <= |SetBytes(f, h, master, splitSize, data, man).value| < TWO_TO_THE_63
    ensures H.Encode(f.json, h).Some?
    ensures var opening := Open(f, SetBytes(f, h, master, splitSize, data, man).value[..n], parts);
            && (opening.Opened? <==>
                  EndsInTrailer(f, SetBytes(f, h, master, splitSize, data, man).value[..n], |H.Encode(f.json, h).value|, parts))
            && (opening.Opened? ==> opening.set_.header == h)
  {
    var s, encoded := SetBytes(f, h, master, splitSize, data, man).value, H.Encode(f.json, h).value;
    var rest := SetRest(f, h, master, splitSize, data, man);
    hide SetBytes, Open, EndsInTrailer, H.Encode, H.ReadHeader, Format.Valid;
    JsonIsSound(f);
    H.ReadEncoded(f.json, h, rest);
    if n >= |encoded| {
      assert s[..n] == encoded + rest[..n - |encoded|];
      H.ReadEncoded(f.json, h, rest[..n - |encoded|]);
      OpensIff(f, s[..n], parts, h, encoded);
    } else {
      NothingOpens(f, s[..n], parts, |encoded|);
      if H.ReadHeader(f.json, s[..n]).Read? {
        H.ReadIsPrefixStable(f.json, s[..n], s);
      }
    }
  }

  lemma SetRest(f: Format, h: H.Header, master: Bytes, splitSize: int, data: Bytes, man: Bytes) returns (rest: Bytes)
    requires f.chunkSize > 0 && SetBytes(f, h, master, splitSize, data, man).Some?
    ensures H.Encode(f.json, h).Some?
    ensures SetBytes(f, h, master, splitSize, data, man).value == H.Encode(f.json, h).value + rest
  {
    hide H.Encode, T.Encode, CS.Encrypted, Format.DeriveKeys;
    var encoded := H.Encode(f.json, h).value;
    var keys := f.DeriveKeys(master, encoded).value;
    var (d, m) := Sections(f, keys, encoded, data, man);
    var tail := T.Encode(f.suite.sha256, StreamTrailer(f, keys, encoded, splitSize, data, man));
    rest := d + m + tail;
    assert encoded + d + m + tail == encoded + (d + m + tail);
  }

  lemma JsonIsSound(f: Format)
    requires f.Valid()
    ensures f.json.Sound()
  {
    hide H.Json.Sound, Suite.Valid;
  }

  lemma NothingOpens(f: Format, s: Bytes, parts: int, headerLen: nat)
    requires |s| < headerLen
    ensures !EndsInTrailer(f, s, headerLen, parts)
    ensures Open(f, s, parts).Opened? ==> H.ReadHeader(f.json, s).Read?
  {
    hide H.ReadHeader, T.Decode, T.CheckStructure;
  }

  // ------------------------------------------------------------------------ keys and nonces

  /** The keys of sets whose headers have these hashes all differ. No function into
      32 bytes has this for all inputs; for the few that are used it is what HKDF is
      for. */
  ghost predicate KeysDiffer(f: Format, master: Bytes, hashes: set<Bytes>) {
    forall g, h, a, b ::
      g in hashes && h in hashes && IsSectionInfo(a) && IsSectionInfo(b) && (g != h || a != b) ==>
        f.suite.hkdf(master, g, a) != f.suite.hkdf(master, h, b)
  }

  predicate IsSectionInfo(info: string) { info == "RestoreSafe v2 data" || info == "RestoreSafe v2 manifest" }

  /** Each section of each set has its own key. */
  lemma SectionKeysAre(f: Format, master: Bytes, encoded: Bytes, encoded': Bytes)
    requires |master| == KEY_LEN && KeysDiffer(f, master, {f.suite.sha256(encoded), f.suite.sha256(encoded')})
    ensures f.DeriveKeys(master, encoded).Some? && f.DeriveKeys(master, encoded').Some?
    ensures var (k, k') := (f.DeriveKeys(master, encoded).value, f.DeriveKeys(master, encoded').value);
            && k.data == f.suite.hkdf(master, f.suite.sha256(encoded), "RestoreSafe v2 data")
            && k.manifest == f.suite.hkdf(master, f.suite.sha256(encoded), "RestoreSafe v2 manifest")
            && k.data != k'.manifest
            && (f.suite.sha256(encoded) != f.suite.sha256(encoded') ==> k.data != k'.data && k.manifest != k'.manifest)
  {
    assert IsSectionInfo("RestoreSafe v2 data") && IsSectionInfo("RestoreSafe v2 manifest");
    assert |"RestoreSafe v2 data"| != |"RestoreSafe v2 manifest"|;
  }

  /** Key and nonce of every call of seal that encrypts p. */
  function Uses(st: CS.Stream, p: Bytes): (r: seq<(Bytes, Bytes)>)
    requires st.chunkSize > 0
    ensures |r| == |CS.Sealings(st, 0, p)|
    ensures forall i :: 0 <= i < |r| ==> r[i] == (st.key, CS.Sealings(st, 0, p)[i].nonce)
  {
    var calls := CS.Sealings(st, 0, p);
    seq(|calls|, i requires 0 <= i < |calls| => (st.key, calls[i].nonce))
  }

  /** The same for both sections of a set. */
  function SetUses(f: Format, keys: SectionKeys, encoded: Bytes, data: Bytes, man: Bytes): seq<(Bytes, Bytes)>
    requires f.chunkSize > 0
  {
    Uses(f.DataStream(keys, encoded), data) + Uses(f.ManifestStream(keys, encoded), man)
  }

  ghost predicate NoneTwice(uses: seq<(Bytes, Bytes)>) {
    forall i, j :: 0 <= i < j < |uses| ==> uses[i] != uses[j]
  }

  lemma UsesDistinct(st: CS.Stream, p: Bytes)
    requires st.chunkSize > 0
    ensures CS.Assembled(st, CS.Sealings(st, 0, p)) == CS.Encrypted(st, p)
    ensures NoneTwice(Uses(st, p)) <==> |p| / st.chunkSize + 1 <= TWO_TO_THE_64
  {
    CS.NoncesDistinct(st, p);
    var uses, calls := Uses(st, p), CS.Sealings(st, 0, p);
    hide CS.Sealings, Uses;
    if NoneTwice(uses) {
      forall i, j | 0 <= i < j < |calls|
        ensures calls[i].nonce != calls[j].nonce
      {
        assert uses[i] != uses[j];
      }
    }
  }

  lemma NoneTwiceConcat(a: seq<(Bytes, Bytes)>, b: seq<(Bytes, Bytes)>)
    requires forall i, j :: 0 <= i < |a| && 0 <= j < |b| ==> a[i] != b[j]
    ensures NoneTwice(a + b) <==> NoneTwice(a) && NoneTwice(b)
  {
    if NoneTwice(a + b) {
      forall i, j | 0 <= i < j < |a|
        ensures a[i] != a[j]
      {
        assert (a + b)[i] != (a + b)[j];
      }
      forall i, j | 0 <= i < j < |b|
        ensures b[i] != b[j]
      {
        assert (a + b)[|a| + i] != (a + b)[|a| + j];
      }
    }
  }

  /** Writing a set never uses a key and a nonce twice, over both of its sections,
      exactly when each section has at most 2^64 chunks; and the calls are those
      that make the set. */
  lemma SetNoncesDistinct(f: Format, h: H.Header, master: Bytes, splitSize: int, data: Bytes, man: Bytes)
    requires f.chunkSize > 0 && SetBytes(f, h, master, splitSize, data, man).Some?
    requires H.Encode(f.json, h).Some? && KeysDiffer(f, master, {f.suite.sha256(H.Encode(f.json, h).value)})
    ensures |master| == 32
    ensures var encoded := H.Encode(f.json, h).value;
            var keys := SectionKeys(f.suite.hkdf(master, f.suite.sha256(encoded), "RestoreSafe v2 data"),
                                    f.suite.hkdf(master, f.suite.sha256(encoded), "RestoreSafe v2 manifest"));
            && SetBytes(f, h, master, splitSize, data, man).value == SetStream(f, keys, encoded, splitSize, data, man)
            && (NoneTwice(SetUses(f, keys, encoded, data, man)) <==>
                  |data| / f.chunkSize + 1 <= TWO_TO_THE_64 && |man| / f.chunkSize + 1 <= TWO_TO_THE_64)
  {
    hide SetStream, H.Encode, Uses, NoneTwice, KeysDiffer;
    var encoded := H.Encode(f.json, h).value;
    OneHash(f.suite.sha256(encoded));
    SectionKeysAre(f, master, encoded, encoded);
    var keys := f.DeriveKeys(master, encoded).value;
    UsesDistinct(f.DataStream(keys, encoded), data);
    UsesDistinct(f.ManifestStream(keys, encoded), man);
    NoneTwiceConcat(Uses(f.DataStream(keys, encoded), data), Uses(f.ManifestStream(keys, encoded), man));
  }

  lemma OneHash(x: Bytes)
    ensures {x, x} == {x}
  {
  }

  /** Two sets under one master key never use a key and a nonce in common, as soon as
      their headers have different hashes. */
  lemma SetsShareNoNonce(f: Format, master: Bytes, encoded: Bytes, data: Bytes, man: Bytes,
                         encoded': Bytes, data': Bytes, man': Bytes)
    requires f.chunkSize > 0 && |master| == KEY_LEN && f.suite.sha256(encoded) != f.suite.sha256(encoded')
    requires KeysDiffer(f, master, {f.suite.sha256(encoded), f.suite.sha256(encoded')})
    ensures f.DeriveKeys(master, encoded).Some? && f.DeriveKeys(master, encoded').Some?
    ensures var uses := SetUses(f, f.DeriveKeys(master, encoded).value, encoded, data, man);
            var uses' := SetUses(f, f.DeriveKeys(master, encoded').value, encoded', data', man');
            forall i, j :: 0 <= i < |uses| && 0 <= j < |uses'| ==> uses[i] != uses'[j]
  {
    SectionKeysAre(f, master, encoded, encoded');
    TwoHashes(f.suite.sha256(encoded), f.suite.sha256(encoded'));
    SectionKeysAre(f, master, encoded', encoded);
    hide KeysDiffer, Format.DeriveKeys;
  }

  lemma TwoHashes(x: Bytes, y: Bytes)
    ensures {x, y} == {y, x}
  {
  }

  /** The associated data of a chunk tells its set, its section, its place in the
      stream and whether it is the last one: no chunk is taken for another. */
  lemma AadDetermines(f: Format, g: Bytes, s: byte, i: nat, flags: byte, h: Bytes, t: byte, j: nat, flags': byte)
    requires |g| == |h| && i < TWO_TO_THE_64 && j < TWO_TO_THE_64
    requires CS.AadOf(f.SectionAad(g, s), i, flags) == CS.AadOf(f.SectionAad(h, t), j, flags')
    ensures g == h && s == t && i == j && flags == flags'
  {
    var a, b := CS.AadOf(f.SectionAad(g, s), i, flags), CS.AadOf(f.SectionAad(h, t), j, flags');
    var n := |g|;
    assert a[..n] == g && b[..n] == h;
    assert a[n] == s && b[n] == t;
    assert a[n + 1..n + 9] == PutUint(i, 8) && b[n + 1..n + 9] == PutUint(j, 8);
    assert a[n + 9] == flags && b[n + 9] == flags';
    Widths();
    PutInjective(i, j, 8);
  }

  /** The two sections of a set have different associated data. */
  lemma SectionsDiffer(f: Format, keys: SectionKeys, encoded: Bytes)
    ensures f.DataStream(keys, encoded).aad == f.suite.sha256(encoded) + [1]
    ensures f.ManifestStream(keys, encoded).aad == f.suite.sha256(encoded) + [2]
    ensures f.DataStream(keys, encoded).aad != f.ManifestStream(keys, encoded).aad
  {
    var h := f.suite.sha256(encoded);
    assert (h + [1])[|h|] == 1 && (h + [2])[|h|] == 2;
  }
}
