/** The plaintext set header: magic, version, length prefix and a JSON body
    whose syntax is a parameter. */
module SetHeader {
  import opened Wrappers
  import opened Binary
  import opened Io
  import Naming

  const MAGIC: Bytes := [0x52, 0x53, 0x42, 0x4B, 0x50, 0x00]  // "RSBKP\0"
  const FORMAT_VERSION: byte := 2
  const HEADER_PREFIX_LEN: nat := 12
  const MAX_HEADER_JSON: nat := 64 * 1024
  const SET_TYPE_FULL: string := "full"
  const SET_TYPE_DIFF: string := "diff"

  /** The fields other code looks at; `other` stands for the remaining ones. */
  datatype Header = Header(
    setType: string, chainId: string, diffNumber: int, runId: string, directoryName: string,
    date: string, baseDate: string, baseManifestHash: string, keySetId: string, other: Bytes)
  {
    predicate IsDiff() { setType == SET_TYPE_DIFF }
  }

  /** The JSON codec of the body, and the checks of the fields not modelled. */
  datatype Json = Json(marshal: Header -> Bytes, parse: Bytes -> Option<Header>, otherValid: Header -> bool) {
    ghost predicate Sound() {
      && (forall h :: parse(marshal(h)) == Some(h))
      && (forall h :: |marshal(h)| > 0)
    }

    predicate Validate(h: Header) {
      && (if h.setType == SET_TYPE_FULL then h.diffNumber == 0 && h.baseDate == "" && h.baseManifestHash == ""
          else h.setType == SET_TYPE_DIFF && 1 <= h.diffNumber <= 999
               && Naming.IsDate(h.baseDate) && |h.baseManifestHash| == 64)
      && Naming.IsId(h.chainId) && Naming.IsId(h.runId) && Naming.IsDate(h.date)
      && otherValid(h)
    }
  }

  function EncodePrefix(length: nat): (r: Bytes)
    ensures |r| == HEADER_PREFIX_LEN
  {
    MAGIC + [FORMAT_VERSION, 0] + PutUint(length, 4)
  }

  /** Header.Encode: None when the header is refused. */
  function Encode(json: Json, h: Header): Option<Bytes> {
    if !json.Validate(h) || |json.marshal(h)| > MAX_HEADER_JSON then None
    else Some(EncodePrefix(|json.marshal(h)|) + json.marshal(h))
  }

  datatype HeaderError =
    | ShortPrefix | NotABackup | OlderFormat | NewerFormat | ReservedByte | BadLength | ShortBody | BadJson | Invalid

  datatype ReadResult = Read(header: Header, encoded: Bytes) | Unreadable(error: HeaderError)

  function CheckPrefix(prefix: Bytes): Option<HeaderError>
    requires |prefix| == HEADER_PREFIX_LEN
  {
    if prefix[..6] != MAGIC then Some(NotABackup)
    else if prefix[6] < FORMAT_VERSION then Some(OlderFormat)
    else if prefix[6] > FORMAT_VERSION then Some(NewerFormat)
    else if prefix[7] != 0 then Some(ReservedByte)
    else if GetUint(prefix[8..]) == 0 || GetUint(prefix[8..]) > MAX_HEADER_JSON then Some(BadLength)
    else None
  }

  function Finish(json: Json, prefix: Bytes, body: Bytes): ReadResult {
    match json.parse(body)
    case None => Unreadable(BadJson)
    case Some(h) => if json.Validate(h) then Read(h, prefix + body) else Unreadable(Invalid)
  }

  /** ReadHeader on the bytes of a stream. */
  function ReadHeader(json: Json, s: Bytes): ReadResult {
    if |s| < HEADER_PREFIX_LEN then Unreadable(ShortPrefix)
    else
      var prefix := s[..HEADER_PREFIX_LEN];
      match CheckPrefix(prefix)
      case Some(e) => Unreadable(e)
      case None =>
        var n := HEADER_PREFIX_LEN + GetUint(prefix[8..]);
        if |s| < n then Unreadable(ShortBody) else Finish(json, prefix, s[HEADER_PREFIX_LEN..n])
  }

  method ReadHeaderFrom(json: Json, src: Source) returns (r: ReadResult)
    modifies src
    ensures r == ReadHeader(json, old(src.rest))
    ensures r.Read? ==> r.encoded + src.rest == old(src.rest)
  {
    ghost var s := src.rest;
    var prefix, fill := src.ReadFull(HEADER_PREFIX_LEN);
    if fill != Full {
      return Unreadable(ShortPrefix);
    }
    assert s[..HEADER_PREFIX_LEN] == prefix;
    var e := CheckPrefix(prefix);
    if e.Some? {
      return Unreadable(e.value);
    }
    var length := GetUint(prefix[8..]);
    var body;
    body, fill := src.ReadFull(length);
    if fill != Full {
      return Unreadable(ShortBody);
    }
    assert s[HEADER_PREFIX_LEN..HEADER_PREFIX_LEN + length] == body;
    assert prefix + body + src.rest == s;
    r := Finish(json, prefix, body);
  }

  // ------------------------------------------------------------------ the format, in numbers

  /** What a header must say. */
  predicate IsHeader(json: Json, h: Header) {
    && Naming.IsId(h.chainId) && Naming.IsId(h.runId) && Naming.IsDate(h.date) && json.otherValid(h)
    && (|| (h.setType == "full" && h.diffNumber == 0 && h.baseDate == "" && h.baseManifestHash == "")
        || (h.setType == "diff" && 0 < h.diffNumber < 1000 && Naming.IsDate(h.baseDate) && |h.baseManifestHash| == 64))
  }

  /** The length that bytes 8 to 11 hold, most significant byte first. */
  function LengthAt8(s: Bytes): nat
    requires |s| >= 12
  {
    var a: nat, b: nat, c: nat, d: nat := s[8], s[9], s[10], s[11];
    a * 0x100_0000 + b * 0x1_0000 + c * 0x100 + d
  }

  /** The stream begins with this encoded header. */
  ghost predicate BeginsWith(json: Json, s: Bytes, h: Header, encoded: Bytes) {
    && |s| >= 12 && s[..8] == [0x52, 0x53, 0x42, 0x4B, 0x50, 0x00, 2, 0]
    && 0 < LengthAt8(s) <= 65536 && |s| >= 12 + LengthAt8(s) && encoded == s[..12 + LengthAt8(s)]
    && json.parse(encoded[12..]) == Some(h) && IsHeader(json, h)
  }

  /** Why no header was read. */
  ghost predicate IsReason(json: Json, s: Bytes, e: HeaderError) {
    if |s| < 12 then e == ShortPrefix
    else if s[..6] != [0x52, 0x53, 0x42, 0x4B, 0x50, 0x00] then e == NotABackup
    else if s[6] != 2 then e == if s[6] < 2 then OlderFormat else NewerFormat
    else if s[7] != 0 then e == ReservedByte
    else if !(0 < LengthAt8(s) <= 65536) then e == BadLength
    else if |s| < 12 + LengthAt8(s) then e == ShortBody
    else e == if json.parse(s[12..12 + LengthAt8(s)]).None? then BadJson else Invalid
  }

  lemma LengthIs(s: Bytes)
    requires |s| >= 12
    ensures GetUint(s[..12][8..]) == LengthAt8(s)
  {
    assert s[..12][8..] == [s[8], s[9], s[10], s[11]];
    FourBytes(s[8], s[9], s[10], s[11]);
    hide GetUint;
  }

  /** Exactly the streams that begin with a header of this format are read, as what
      they begin with; and every other one is refused for the first thing that is
      wrong with it. */
  lemma ReadsExactly(json: Json, s: Bytes, h: Header, encoded: Bytes)
    ensures ReadHeader(json, s) == Read(h, encoded) <==> BeginsWith(json, s, h, encoded)
    ensures ReadHeader(json, s).Unreadable? ==> IsReason(json, s, ReadHeader(json, s).error)
  {
    if |s| >= 12 {
      LengthIs(s);
      var prefix, n := s[..12], 12 + LengthAt8(s);
      assert s[..8] == s[..6] + [s[6], s[7]];
      assert prefix[..6] == s[..6];
      if |s| >= n {
        assert prefix + s[12..n] == s[..n] && s[..n][12..] == s[12..n];
      }
    }
    hide GetUint, LengthAt8;
  }

  /** Exactly the valid headers of at most 64 KiB are written, and as such streams. */
  lemma WritesExactly(json: Json, h: Header)
    requires json.Sound()
    ensures Encode(json, h).Some? <==> IsHeader(json, h) && |json.marshal(h)| <= 65536
    ensures Encode(json, h).Some? ==>
              BeginsWith(json, Encode(json, h).value, h, Encode(json, h).value) && Encode(json, h).value[12..] == json.marshal(h)
  {
    if Encode(json, h).Some? {
      var e := Encode(json, h).value;
      ReadEncoded(json, h, []);
      assert e + [] == e;
      ReadsExactly(json, e, h, e);
      hide GetUint, PutUint, LengthAt8, ReadHeader;
    }
  }

  /** A header that Encode writes is read back, whatever follows it. */
  lemma ReadEncoded(json: Json, h: Header, rest: Bytes)
    requires json.Sound() && Encode(json, h).Some?
    ensures ReadHeader(json, Encode(json, h).value + rest) == Read(h, Encode(json, h).value)
  {
    var body := json.marshal(h);
    var prefix := EncodePrefix(|body|);
    var s := Encode(json, h).value + rest;
    assert s[..HEADER_PREFIX_LEN] == prefix;
    assert prefix[..6] == MAGIC && prefix[8..] == PutUint(|body|, 4);
    Widths();
    GetPut(|body|, 4);
    assert s[HEADER_PREFIX_LEN..HEADER_PREFIX_LEN + |body|] == body;
  }

  /** A header that was read is the head of the stream, and reading it again
      from a longer stream gives the same header. */
  lemma ReadIsPrefixStable(json: Json, s: Bytes, t: Bytes)
    requires ReadHeader(json, s).Read? && s <= t
    ensures HEADER_PREFIX_LEN < |ReadHeader(json, s).encoded| <= HEADER_PREFIX_LEN + MAX_HEADER_JSON
    ensures ReadHeader(json, s).encoded <= s
    ensures ReadHeader(json, t) == ReadHeader(json, s)
  {
    var n := HEADER_PREFIX_LEN + GetUint(s[..HEADER_PREFIX_LEN][8..]);
    assert s[..HEADER_PREFIX_LEN] == t[..HEADER_PREFIX_LEN];
    assert s[HEADER_PREFIX_LEN..n] == t[HEADER_PREFIX_LEN..n];
    assert s[..HEADER_PREFIX_LEN] + s[HEADER_PREFIX_LEN..n] == s[..n];
  }
}
