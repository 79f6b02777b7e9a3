/** readStructure on part files: the header and the trailer of a set, read
    through the parts reader. */
module SetReader {
  import opened Wrappers
  import opened Binary
  import opened Container
  import opened Parts
  import H = SetHeader
  import S = Split
  import T = Trailer

  /** A read of n bytes: all of them, or what the stream has up to its end. */
  method ReadFullAt(r: PartsReader, off: nat, n: nat) returns (got: Bytes, error: ReadError)
    requires r.Valid() && 0 < n
    modifies r
    ensures r.Valid()
    ensures error == Complete ==> |got| == n
    ensures r.Unchanged() && error == Complete ==> off + n <= |S.Join(r.disk.files)| && got == S.Join(r.disk.files)[off..off + n]
    ensures r.Unchanged() && error == Eof ==> |S.Join(r.disk.files)| < off + n
    ensures r.Unchanged() && error != Complete && error != Eof ==> r.failed
  {
    var p := new byte[n];
    var total;
    total, error := r.ReadAt(p, off);
    got := p[..total];
    SizeIs(r);
    hide S.Join;
  }

  lemma SizeIs(r: PartsReader)
    ensures r.Unchanged() ==> r.size == |S.Join(r.disk.files)|
  {
  }

  lemma CountIs(r: PartsReader)
    requires r.Valid()
    ensures |r.starts| == |r.disk.files|
  {
  }

  /** Header and trailer of a set in part files. As long as no other program
      changes the parts and no read fails, the answer is that of Open for the
      joined parts. */
  method ReadStructure(f: Format, r: PartsReader) returns (res: Option<OpenResult>)
    requires r.Valid()
    modifies r
    ensures r.Valid()
    ensures r.Unchanged() && res.Some? ==> res.value == Open(f, S.Join(r.disk.files), |r.disk.files|)
    ensures r.Unchanged() && res.None? ==> r.failed
  {
    hide *;
    ghost var s := S.Join(r.disk.files);
    SizeIs(r);
    PrefixLength();
    var prefix, e := ReadFullAt(r, 0, H.HEADER_PREFIX_LEN);
    HeaderCases(f.json, s);
    if e == Eof {
      OpenRefusesHeader(f, s, |r.disk.files|);
      return Some(OpenResult.OpenFailed(BadHeader(H.ShortPrefix)));
    } else if e != Complete {
      return None;
    }
    var problem := H.CheckPrefix(prefix);
    if problem.Some? {
      OpenRefusesHeader(f, s, |r.disk.files|);
      return Some(OpenResult.OpenFailed(BadHeader(problem.value)));
    }
    PositiveLength(prefix);
    var length := GetUint(prefix[8..]);
    var body;
    body, e := ReadFullAt(r, H.HEADER_PREFIX_LEN, length);
    if e == Eof {
      OpenRefusesHeader(f, s, |r.disk.files|);
      return Some(OpenResult.OpenFailed(BadHeader(H.ShortBody)));
    } else if e != Complete {
      return None;
    }
    match H.Finish(f.json, prefix, body)
    case Unreadable(error) =>
      OpenRefusesHeader(f, s, |r.disk.files|);
      return Some(OpenResult.OpenFailed(BadHeader(error)));
    case Read(h, encoded) =>
      res := ReadTrailer(f, r, h, encoded);
  }

  method ReadTrailer(f: Format, r: PartsReader, h: H.Header, encoded: Bytes) returns (res: Option<OpenResult>)
    requires r.Valid()
    modifies r
    ensures r.Valid()
    ensures r.Unchanged() && res.Some? && H.ReadHeader(f.json, S.Join(r.disk.files)) == H.Read(h, encoded) ==>
              res.value == Open(f, S.Join(r.disk.files), |r.disk.files|)
    ensures r.Unchanged() && res.None? ==> r.failed
  {
    hide S.Join, H.ReadHeader, T.Decode, T.CheckStructure;
    SizeIs(r);
    if r.size < |encoded| + T.TRAILER_LEN {
      return Some(OpenResult.OpenFailed(Incomplete(T.TooShort)));
    }
    var raw, e := ReadFullAt(r, r.size - T.TRAILER_LEN, T.TRAILER_LEN);
    if e != Complete {
      return None;
    }
    ghost var s := S.Join(r.disk.files);
    assert r.Unchanged() ==> raw == s[|s| - T.TRAILER_LEN..];
    CountIs(r);
    match T.Decode(f.suite.sha256, raw)
    case Refused(reason) =>
      return Some(OpenResult.OpenFailed(Incomplete(reason)));
    case Decoded(t) =>
      var refused := T.CheckStructure(t, |encoded|, r.size, |r.starts|);
      return Some(if refused.Some? then OpenResult.OpenFailed(Incomplete(refused.value)) else Opened(OpenedSet(h, encoded, t)));
  }

  lemma PrefixLength()
    ensures H.HEADER_PREFIX_LEN == 12
  {
  }

  lemma PositiveLength(prefix: Bytes)
    requires |prefix| == H.HEADER_PREFIX_LEN && H.CheckPrefix(prefix).None?
    ensures GetUint(prefix[8..]) > 0
  {
    hide GetUint;
  }

  lemma HeaderCases(json: H.Json, s: Bytes)
    ensures H.HEADER_PREFIX_LEN == 12
    ensures |s| < 12 ==> H.ReadHeader(json, s) == H.Unreadable(H.ShortPrefix)
    ensures |s| >= 12 ==>
              var prefix := s[..12];
              var n := 12 + GetUint(prefix[8..]);
              H.ReadHeader(json, s) ==
              if H.CheckPrefix(prefix).Some? then H.Unreadable(H.CheckPrefix(prefix).value)
              else if |s| < n then H.Unreadable(H.ShortBody)
              else H.Finish(json, prefix, s[12..n])
  {
    hide GetUint, H.Finish, H.CheckPrefix;
  }

  lemma OpenRefusesHeader(f: Format, s: Bytes, parts: int)
    ensures H.ReadHeader(f.json, s).Unreadable? ==> Open(f, s, parts) == OpenResult.OpenFailed(BadHeader(H.ReadHeader(f.json, s).error))
  {
    hide H.ReadHeader;
  }
}
