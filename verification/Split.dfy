/** The multi-part writer and the reader over part files. */
module Split {
  import opened Binary

  // ----------------------------------------------------------- parts of a byte stream

  function Join(parts: seq<Bytes>): Bytes {
    if |parts| == 0 then [] else Join(parts[..|parts| - 1]) + parts[|parts| - 1]
  }

  /** All parts but the last are exactly full, and none is empty. */
  ghost predicate WellSplit(parts: seq<Bytes>, max: nat) {
    && (forall i :: 0 <= i < |parts| ==> 0 < |parts[i]| <= max)
    && (forall i :: 0 <= i < |parts| - 1 ==> |parts[i]| == max)
  }

  lemma JoinAppend(parts: seq<Bytes>, last: Bytes)
    ensures Join(parts + [last]) == Join(parts) + last
  {
    assert (parts + [last])[..|parts|] == parts;
  }

  lemma {:induction false} JoinLength(parts: seq<Bytes>, max: nat)
    requires WellSplit(parts, max) && |parts| > 0
    ensures |Join(parts)| == (|parts| - 1) * max + |parts[|parts| - 1]|
  {
    var init := parts[..|parts| - 1];
    if |init| > 0 {
      assert init[|init| - 1] == parts[|parts| - 2];
      JoinLength(init, max);
    }
  }

  /** The number of parts is the ceiling division that the trailer records. */
  lemma WellSplitCount(parts: seq<Bytes>, max: nat)
    requires WellSplit(parts, max) && max > 0
    ensures |parts| == (|Join(parts)| + max - 1) / max
  {
    if |parts| == 0 {
      QuotientIs(max - 1, max, 0, max - 1);
    } else {
      JoinLength(parts, max);
      var last := |parts[|parts| - 1]|;
      QuotientIs(|Join(parts)| + max - 1, max, |parts|, last - 1);
    }
  }

  /** A stream is well split in one way only. */
  lemma {:induction false} WellSplitUnique(a: seq<Bytes>, b: seq<Bytes>, max: nat)
    requires max > 0 && WellSplit(a, max) && WellSplit(b, max) && Join(a) == Join(b)
    ensures a == b
  {
    WellSplitCount(a, max);
    WellSplitCount(b, max);
    if |a| > 0 {
      var n := |a| - 1;
      JoinLength(a, max);
      JoinLength(b, max);
      assert Join(a)[|Join(a[..n])|..] == a[n] && Join(b)[|Join(b[..n])|..] == b[n];
      assert |Join(a[..n])| == |Join(b[..n])|;
      assert Join(a)[..|Join(a[..n])|] == Join(a[..n]) && Join(b)[..|Join(b[..n])|] == Join(b[..n]);
      WellSplitUnique(a[..n], b[..n], max);
      assert a == a[..n] + [a[n]] && b == b[..n] + [b[n]];
    }
  }

  lemma TakeMore(before: Bytes, p: Bytes, m: nat, n: nat)
    requires m + n <= |p|
    ensures (before + p[..m]) + p[m..][..n] == before + p[..m + n]
  {
  }

  // ---------------------------------------------------------------------- the writer

  /** One part file: its number in the name and what was written to it. */
  datatype Part = Part(number: nat, data: Bytes)

  function DataOf(parts: seq<Part>): (r: seq<Bytes>)
    ensures |r| == |parts| && forall i :: 0 <= i < |r| ==> r[i] == parts[i].data
  {
    seq(|parts|, i requires 0 <= i < |parts| => parts[i].data)
  }

  datatype WriteError = NoError | BadPartSize | CreateFailed | WriteFailed | CloseFailed

  /** Distributes a byte stream across part files. Any file operation may fail. */
  class Writer {
    const maxBytes: int
    var seqNo: nat
    var written: int
    var isOpen: bool
    var parts: seq<Part>
    /** Whether a file operation has failed. */
    var failed: bool

    constructor (maxBytes: int)
      ensures this.maxBytes == maxBytes && parts == [] && Valid() && !isOpen && !failed
    {
      this.maxBytes := maxBytes;
      seqNo, written, isOpen, parts, failed := 0, 0, false, [], false;
    }

    ghost function Files(): seq<Bytes>
      reads this`parts
    {
      DataOf(parts)
    }

    /** The state between two successful writes. */
    ghost predicate Valid()
      reads this
    {
      && Numbered()
      && (maxBytes > 0 ==> WellSplit(Files(), maxBytes))
      && (isOpen <==> |parts| > 0 && |parts[|parts| - 1].data| < maxBytes)
      && (isOpen ==> written == |parts[|parts| - 1].data|)
    }

    ghost predicate Numbered()
      reads this
    {
      seqNo == |parts| && forall i :: 0 <= i < |parts| ==> parts[i].number == i + 1
    }

    /** The state inside Write: an open part has room left and may still be empty. */
    ghost predicate Ready(files: seq<Bytes>)
      reads this
    {
      && Numbered() && files == Files() && maxBytes > 0
      && (if isOpen then
            && |files| > 0 && written == |files[|files| - 1]| < maxBytes
            && (forall i :: 0 <= i < |files| - 1 ==> |files[i]| == maxBytes)
          else forall i :: 0 <= i < |files| ==> |files[i]| == maxBytes)
    }

    method OpenNext() returns (ok: bool)
      requires Ready(Files()) && !isOpen
      modifies this
      ensures ok ==> isOpen && Ready(Files()) && Files() == old(Files()) + [[]]
      ensures !ok ==> parts == old(parts)
      ensures failed == (old(failed) || !ok)
    {
      seqNo := seqNo + 1;
      ok := *;
      failed := failed || !ok;
      if ok {
        parts := parts + [Part(seqNo, [])];
        isOpen, written := true, 0;
        assert Files() == old(Files()) + [[]];
      }
    }

    method CloseCurrent() returns (ok: bool)
      modifies this`isOpen, this`failed
      ensures !isOpen && (!old(isOpen) ==> ok) && failed == (old(failed) || !ok)
    {
      if !isOpen {
        return true;
      }
      isOpen := false;
      ok := *;
      failed := failed || !ok;
    }

    /** Writes as much of p as fits into the open part and closes a full part. */
    method WriteSome(p: Bytes) returns (n: nat, error: WriteError)
      requires Ready(Files()) && isOpen && |p| > 0
      modifies this
      ensures n <= |p| && Join(Files()) == Join(old(Files())) + p[..n]
      ensures error == NoError ==> n > 0 && Ready(Files()) && (isOpen ==> n == |p| && written > 0)
      ensures failed == (old(failed) || error != NoError) && error != BadPartSize
    {
      ghost var files := Files();
      var last := |parts| - 1;
      var remaining := maxBytes - written;
      n := if |p| > remaining then remaining else |p|;
      var ok: bool := *;
      if !ok {
        var k: nat :| k <= n;
        n := k;
      }
      parts := parts[last := Part(parts[last].number, parts[last].data + p[..n])];
      written := written + n;
      assert Files() == files[..last] + [files[last] + p[..n]];
      JoinAppend(files[..last], files[last] + p[..n]);
      if !ok {
        failed := true;
        return n, WriteFailed;
      }
      if written >= maxBytes {
        var closed := CloseCurrent();
        if !closed {
          return n, CloseFailed;
        }
      }
      return n, NoError;
    }

    /** One turn of the loop of Write. */
    method WriteTurn(p: Bytes) returns (n: nat, error: WriteError)
      requires Ready(Files()) && |p| > 0
      modifies this
      ensures n <= |p| && Join(Files()) == Join(old(Files())) + p[..n]
      ensures error == NoError ==> n > 0 && Ready(Files()) && (isOpen ==> written > 0)
      ensures failed == (old(failed) || error != NoError) && error != BadPartSize
    {
      if !isOpen {
        ghost var files := Files();
        var ok := OpenNext();
        if !ok {
          return 0, CreateFailed;
        }
        JoinAppend(files, []);
      }
      n, error := WriteSome(p);
    }

    lemma BetweenWrites()
      requires maxBytes > 0
      ensures Valid() <==> Ready(Files()) && (isOpen ==> written > 0)
    {
      var files := Files();
      if Valid() && !isOpen && |files| > 0 {
        assert files[|files| - 1] == parts[|files| - 1].data;
      }
    }

    /** Write: without an error all of p is in the part files, well split; with
        one, exactly the reported number of its bytes. */
    method Write(p: Bytes) returns (total: nat, error: WriteError)
      requires Valid()
      modifies this
      ensures total <= |p| && Join(Files()) == Join(old(Files())) + p[..total]
      ensures error == NoError ==> total == |p| && maxBytes > 0 && Valid()
      ensures maxBytes <= 0 <==> error == BadPartSize
      ensures failed == (old(failed) || (error != NoError && error != BadPartSize))
    {
      if maxBytes <= 0 {
        return 0, BadPartSize;
      }
      total := 0;
      ghost var before := Join(Files());
      BetweenWrites();
      hide Join, Ready, Valid, Numbered;
      while total < |p|
        invariant total <= |p| && Ready(Files()) && (isOpen ==> written > 0)
        invariant Join(Files()) == before + p[..total] && failed == old(failed)
      {
        var n, e := WriteTurn(p[total..]);
        TakeMore(before, p, total, n);
        total := total + n;
        if e != NoError {
          return total, e;
        }
      }
      BetweenWrites();
      return total, NoError;
    }

    method Close() returns (ok: bool)
      modifies this`isOpen, this`failed
      ensures !isOpen && parts == old(parts) && failed == (old(failed) || !ok)
    {
      ok := CloseCurrent();
    }
  }
}
