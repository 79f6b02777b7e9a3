/** The 64-byte trailer and its checks, with the 64-bit arithmetic of the code. */
module Trailer {
  import opened Wrappers
  import opened Binary

  const TRAILER_LEN: int := 64
  const MAGIC: Bytes := [0x52, 0x53, 0x54, 0x52, 0x4C, 0x00, 0x02, 0x00]  // "RSTRL\0\2\0"
  const MIN_SECTION_LEN: int := 21

  datatype Trailer = Trailer(
    dataOffset: int, dataLength: int, manifestOffset: int, manifestLength: int, partCount: int)
  {
    /** The fields are int64 values and partCount a uint32 value. */
    predicate InRange() {
      && IsInt64(dataOffset) && IsInt64(dataLength) && IsInt64(manifestOffset) && IsInt64(manifestLength)
      && 0 <= partCount < TWO_TO_THE_32
    }
  }

  predicate IsInt64(n: int) { -TWO_TO_THE_63 <= n < TWO_TO_THE_63 }

  datatype Incomplete =
    | WrongLength | NotFound | ChecksumMismatch | ReservedNotZero | TooShort
    | NotAfterHeader | SectionTooShort | NotAdjacent | SizeMismatch | PartCountMismatch

  datatype Decoding = Decoded(trailer: Trailer) | Refused(reason: Incomplete)

  function Word(n: int): (r: Bytes)
    ensures |r| == 8
  {
    PutUint(n % TWO_TO_THE_64, 8)
  }

  function Fields(t: Trailer): (r: Bytes)
    ensures |r| == 48
  {
    MAGIC + Word(t.dataOffset) + Word(t.dataLength) + Word(t.manifestOffset) + Word(t.manifestLength)
    + PutUint(t.partCount % TWO_TO_THE_32, 4) + PutUint(0, 4)
  }

  function Checksum(sha256: Bytes -> Bytes, fields: Bytes): Bytes {
    var sum := sha256(fields);
    if |sum| >= 16 then sum[..16] else sum
  }

  function Encode(sha256: Bytes -> Bytes, t: Trailer): Bytes {
    Fields(t) + Checksum(sha256, Fields(t))
  }

  function FieldsOf(b: Bytes): Trailer
    requires |b| >= 48
  {
    Trailer(Int64(GetUint(b[8..16])), Int64(GetUint(b[16..24])), Int64(GetUint(b[24..32])),
            Int64(GetUint(b[32..40])), GetUint(b[40..44]))
  }

  function Decode(sha256: Bytes -> Bytes, b: Bytes): Decoding {
    if |b| != TRAILER_LEN then Refused(WrongLength)
    else if b[..8] != MAGIC then Refused(NotFound)
    else if Checksum(sha256, b[..48]) != b[48..] then Refused(ChecksumMismatch)
    else if GetUint(b[44..48]) != 0 then Refused(ReservedNotZero)
    else Decoded(FieldsOf(b))
  }

  /** Trailer.check, every sum wrapping around at 64 bits. */
  function Check(t: Trailer, headerLen: int, totalSize: int, partsPresent: int): Option<Incomplete> {
    if t.dataOffset != headerLen then Some(NotAfterHeader)
    else if t.dataLength < MIN_SECTION_LEN || t.manifestLength < MIN_SECTION_LEN then Some(SectionTooShort)
    else if t.manifestOffset != Int64(t.dataOffset + t.dataLength) then Some(NotAdjacent)
    else if Int64(Int64(t.manifestOffset + t.manifestLength) + TRAILER_LEN) != totalSize then Some(SizeMismatch)
    else if t.partCount != partsPresent then Some(PartCountMismatch)
    else None
  }

  /** The size test of readStructure, then check. */
  function CheckStructure(t: Trailer, headerLen: int, totalSize: int, partsPresent: int): Option<Incomplete> {
    if totalSize < headerLen + TRAILER_LEN then Some(TooShort) else Check(t, headerLen, totalSize, partsPresent)
  }

  /** Header, data, manifest and trailer cover the stream without gap or overlap. */
  predicate Tiles(t: Trailer, headerLen: int, totalSize: int, partsPresent: int) {
    && t.dataOffset == headerLen && 21 <= t.dataLength && 21 <= t.manifestLength
    && t.manifestOffset == t.dataOffset + t.dataLength
    && t.manifestOffset + t.manifestLength + 64 == totalSize
    && t.partCount == partsPresent
  }

  /** For every trailer that can be decoded, the checks pass exactly when the
      sections tile the stream over the integers: no overflow gets through. */
  lemma ChecksTile(t: Trailer, headerLen: int, totalSize: int, partsPresent: int)
    requires t.InRange() && 0 <= headerLen <= MAX_HEADER && 0 <= totalSize < TWO_TO_THE_63
    ensures CheckStructure(t, headerLen, totalSize, partsPresent).None? <==> Tiles(t, headerLen, totalSize, partsPresent)
  {
    var sum := t.dataOffset + t.dataLength;
    if CheckStructure(t, headerLen, totalSize, partsPresent).None? {
      Int64Cases(sum);
      Int64Cases(t.manifestOffset + t.manifestLength);
      Int64Cases(Int64(t.manifestOffset + t.manifestLength) + TRAILER_LEN);
    }
  }

  const MAX_HEADER: int := 12 + 64 * 1024

  lemma Int64Cases(n: int)
    requires -TWO_TO_THE_64 <= n < TWO_TO_THE_64
    ensures Int64(n) == n || Int64(n) == n - TWO_TO_THE_64 || Int64(n) == n + TWO_TO_THE_64
  {
  }

  /** check alone would let an overflow pass: both lengths are 2^63 - 1, and the
      stream is two bytes too short to hold a header and a trailer. */
  lemma SizeTestNeeded(headerLen: int)
    requires 0 <= headerLen <= MAX_HEADER
    ensures exists t: Trailer, totalSize :: t.InRange() && totalSize == headerLen + 62
              && Check(t, headerLen, totalSize, 1).None? && !Tiles(t, headerLen, totalSize, 1)
  {
    var big := TWO_TO_THE_63 - 1;
    var t := Trailer(headerLen, big, headerLen + big - TWO_TO_THE_64, big, 1);
    if headerLen == 0 {
      t := t.(manifestOffset := big);
    }
    assert t.InRange() && Check(t, headerLen, headerLen + 62, 1).None? && !Tiles(t, headerLen, headerLen + 62, 1);
  }

  // ---------------------------------------------------------------- encode and decode

  lemma WordRoundTrip(n: int)
    requires IsInt64(n)
    ensures Int64(GetUint(Word(n))) == n
  {
    hide GetUint, PutUint;
    Widths();
    GetPut(n % TWO_TO_THE_64, 8);
  }

  lemma FieldSlices(t: Trailer)
    ensures var f := Fields(t);
            && f[..8] == MAGIC && f[8..16] == Word(t.dataOffset) && f[16..24] == Word(t.dataLength)
            && f[24..32] == Word(t.manifestOffset) && f[32..40] == Word(t.manifestLength)
            && f[40..44] == PutUint(t.partCount % TWO_TO_THE_32, 4) && f[44..48] == PutUint(0, 4)
  {
    hide PutUint, Word;
  }

  lemma Uint32RoundTrip(n: int)
    requires 0 <= n < TWO_TO_THE_32
    ensures GetUint(PutUint(n % TWO_TO_THE_32, 4)) == n
  {
    hide GetUint, PutUint;
    Widths();
    GetPut(n, 4);
  }

  lemma FieldsRoundTrip(t: Trailer)
    requires t.InRange()
    ensures FieldsOf(Fields(t)) == t && GetUint(Fields(t)[44..48]) == 0
  {
    hide Fields, Word, GetUint, PutUint, Int64;
    FieldSlices(t);
    WordRoundTrip(t.dataOffset);
    WordRoundTrip(t.dataLength);
    WordRoundTrip(t.manifestOffset);
    WordRoundTrip(t.manifestLength);
    Uint32RoundTrip(t.partCount);
    Uint32RoundTrip(0);
  }

  lemma DecodeEncode(sha256: Bytes -> Bytes, t: Trailer)
    requires t.InRange() && |sha256(Fields(t))| == 32
    ensures |Encode(sha256, t)| == TRAILER_LEN && Decode(sha256, Encode(sha256, t)) == Decoded(t)
  {
    FieldsRoundTrip(t);
    FieldSlices(t);
    hide Fields, Word, GetUint, PutUint, Int64;
    var b, f := Encode(sha256, t), Fields(t);
    assert b[..48] == f && b[..8] == f[..8] && b[44..48] == f[44..48];
    SameFields(b, f);
  }

  lemma SameFields(b: Bytes, f: Bytes)
    requires |f| == 48 && f <= b
    ensures FieldsOf(b) == FieldsOf(f)
  {
    hide GetUint, Int64;
    assert b[8..16] == f[8..16] && b[16..24] == f[16..24] && b[24..32] == f[24..32];
    assert b[32..40] == f[32..40] && b[40..44] == f[40..44];
  }

  lemma DecodedInRange(sha256: Bytes -> Bytes, b: Bytes)
    requires Decode(sha256, b).Decoded?
    ensures Decode(sha256, b).trailer.InRange()
  {
    Widths();
    GetUintBound(b[40..44]);
  }

  /** Exactly these 64 bytes decode to a trailer: the magic number, four 64-bit
      fields, the number of parts, four zero bytes, and the first half of the hash
      of all that. */
  lemma DecodesExactly(sha256: Bytes -> Bytes, b: Bytes, t: Trailer)
    requires forall x :: |sha256(x)| == 32
    ensures Decode(sha256, b) == Decoded(t) <==>
            && |b| == 64 && b[..8] == [0x52, 0x53, 0x54, 0x52, 0x4C, 0x00, 0x02, 0x00]
            && t.InRange()
            && GetUint(b[8..16]) == t.dataOffset % 0x1_0000_0000_0000_0000
            && GetUint(b[16..24]) == t.dataLength % 0x1_0000_0000_0000_0000
            && GetUint(b[24..32]) == t.manifestOffset % 0x1_0000_0000_0000_0000
            && GetUint(b[32..40]) == t.manifestLength % 0x1_0000_0000_0000_0000
            && GetUint(b[40..44]) == t.partCount && GetUint(b[44..48]) == 0
            && b[48..] == sha256(b[..48])[..16]
  {
    if |b| == 64 {
      WordIs(b[8..16], t.dataOffset);
      WordIs(b[16..24], t.dataLength);
      WordIs(b[24..32], t.manifestOffset);
      WordIs(b[32..40], t.manifestLength);
      Widths();
      GetUintBound(b[40..44]);
    }
    hide GetUint, Int64;
  }

  lemma WordIs(w: Bytes, n: int)
    requires |w| == 8
    ensures Int64(GetUint(w)) == n <==> IsInt64(n) && GetUint(w) == n % 0x1_0000_0000_0000_0000
  {
    Widths();
    GetUintBound(w);
    hide GetUint;
  }
}
