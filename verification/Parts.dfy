/** partsReader: the part files of a set as one random-access byte stream. */
module Parts {
  import opened Wrappers
  import opened Binary
  import opened Split

  /** The part files as the operating system holds them; other programs may change them. */
  class Disk {
    var files: seq<Bytes>
    /** Whether os.Stat has failed. */
    var failed: bool

    constructor (files: seq<Bytes>)
      ensures this.files == files && !failed
    {
      this.files, failed := files, false;
    }

    /** os.Stat of a part: its size. */
    method Stat(i: nat) returns (size: Option<nat>)
      requires i < |files|
      modifies this`failed
      ensures size.Some? ==> size.value == |files[i]|
      ensures failed == (old(failed) || size.None?)
    {
      var ok: bool := *;
      size := if ok then Some(|files[i]|) else None;
      failed := failed || !ok;
    }
  }

  datatype ReadError = Complete | Eof | NegativeOffset | OpenFailed | ReadFailed | PartChanged

  ghost predicate StartsOf(starts: seq<nat>, size: nat, files: seq<Bytes>) {
    && |starts| == |files| && size == |Join(files)|
    && forall i :: 0 <= i < |files| ==> starts[i] == |Join(files[..i])|
  }

  lemma StartsAscend(starts: seq<nat>, size: nat, files: seq<Bytes>)
    requires StartsOf(starts, size, files)
    ensures forall j, k :: 0 <= j < k < |starts| ==> starts[j] <= starts[k]
    ensures if |starts| > 0 then starts[0] == 0 else size == 0
  {
    forall j, k | 0 <= j < k < |starts|
      ensures starts[j] <= starts[k]
    {
      LongerJoin(files, j, k);
    }
  }

  lemma {:induction false} LongerJoin(files: seq<Bytes>, j: nat, k: nat)
    requires j <= k <= |files|
    ensures |Join(files[..j])| <= |Join(files[..k])|
    decreases k
  {
    if j < k {
      LongerJoin(files, j, k - 1);
      assert files[..k][..k - 1] == files[..k - 1];
    }
  }

  /** newPartsReader: measures every part, unless os.Stat of one of them fails. */
  method NewPartsReader(disk: Disk) returns (r: Option<PartsReader>)
    modifies disk`failed
    ensures disk.failed == (old(disk.failed) || r.None?)
    ensures r.Some? ==> fresh(r.value) && r.value.disk == disk && r.value.Valid() && r.value.Unchanged() && !r.value.isOpen
  {
    var offsets: seq<nat>, total: nat := [], 0;
    for i := 0 to |disk.files|
      invariant |offsets| == i && total == |Join(disk.files[..i])|
      invariant forall k :: 0 <= k < i ==> offsets[k] == |Join(disk.files[..k])|
      invariant disk.failed == old(disk.failed)
    {
      var size := disk.Stat(i);
      if size.None? {
        return None;
      }
      offsets := offsets + [total];
      total := total + size.value;
      assert disk.files[..i + 1] == disk.files[..i] + [disk.files[i]];
      JoinAppend(disk.files[..i], disk.files[i]);
    }
    assert disk.files[..|disk.files|] == disk.files;
    var reader := new PartsReader(disk, offsets, total);
    return Some(reader);
  }

  class PartsReader {
    const disk: Disk
    const starts: seq<nat>
    const size: nat
    var openIdx: int
    var isOpen: bool
    /** Whether opening or reading a part has failed. */
    var failed: bool

    /** The part files still have the sizes they had when the reader was made. */
    ghost predicate Unchanged()
      reads disk
    {
      StartsOf(starts, size, disk.files)
    }

    /** The measured offsets ascend from 0. */
    ghost predicate Valid()
      reads disk
    {
      && |disk.files| == |starts|
      && (forall j, k :: 0 <= j < k < |starts| ==> starts[j] <= starts[k])
      && (if |starts| > 0 then starts[0] == 0 else size == 0)
    }

    constructor (disk: Disk, starts: seq<nat>, size: nat)
      requires StartsOf(starts, size, disk.files)
      ensures this.disk == disk && this.starts == starts && this.size == size && Valid() && Unchanged() && !isOpen && !failed
    {
      this.disk, this.starts, this.size := disk, starts, size;
      openIdx, isOpen, failed := -1, false, false;
      StartsAscend(starts, size, disk.files);
    }

    /** sort.Search: the first part that starts behind off. */
    method FirstStartBehind(off: nat) returns (i: nat)
      requires forall j, k :: 0 <= j < k < |starts| ==> starts[j] <= starts[k]
      ensures i <= |starts|
      ensures forall k :: 0 <= k < i ==> starts[k] <= off
      ensures forall k :: i <= k < |starts| ==> off < starts[k]
    {
      i := 0;
      var j := |starts|;
      while i < j
        invariant i <= j <= |starts|
        invariant forall k :: 0 <= k < i ==> starts[k] <= off
        invariant forall k :: j <= k < |starts| ==> off < starts[k]
      {
        var h := (i + j) / 2;
        if starts[h] <= off {
          i := h + 1;
        } else {
          j := h;
        }
      }
    }

    /** file: makes part idx the open one. */
    method OpenFile(idx: nat) returns (ok: bool)
      modifies this
      ensures ok ==> isOpen && openIdx == idx
      ensures failed == (old(failed) || !ok)
    {
      if openIdx == idx && isOpen {
        return true;
      }
      isOpen := false;
      ok := *;
      failed := failed || !ok;
      if ok {
        isOpen, openIdx := true, idx;
      }
    }

    /** ReadAt of one file into p from index `at` on. */
    method ReadFile(idx: nat, p: array<byte>, at: nat, pos: nat) returns (n: nat, error: ReadError)
      requires idx < |disk.files| && at <= p.Length
      modifies p, this`failed
      ensures failed == (old(failed) || error == ReadFailed)
      ensures at + n <= p.Length && (n > 0 ==> pos + n <= |disk.files[idx]|)
      ensures p[..at] == old(p[..at])
      ensures n > 0 ==> p[at..at + n] == disk.files[idx][pos..pos + n]
      ensures error == Complete ==> at + n == p.Length
      ensures error == Eof ==> at + n < p.Length && pos + n >= |disk.files[idx]|
      ensures error in {Complete, Eof, ReadFailed}
    {
      var f := disk.files[idx];
      var left := if pos < |f| then |f| - pos else 0;
      n := if p.Length - at <= left then p.Length - at else left;
      error := if at + n == p.Length then Complete else Eof;
      var ok: bool := *;
      if !ok {
        var k: nat :| k <= n;
        n, error, failed := k, ReadFailed, true;
      }
      forall i | 0 <= i < n { p[at + i] := f[pos + i]; }
      if n > 0 {
        assert p[at..at + n] == f[pos..pos + n];
      }
    }

    /** One turn of the loop of ReadAt, for the bytes of p from index total on. */
    method ReadTurn(p: array<byte>, off: nat, total: nat) returns (n: nat, error: ReadError)
      requires Valid() && total < p.Length && off + total < size
      modifies this, p
      ensures total + n <= p.Length
      ensures Unchanged() && IsSlice(Join(disk.files), off, old(p[..total])) ==>
              IsSlice(Join(disk.files), off, p[..total + n]) && error != PartChanged
      ensures error in {Complete, OpenFailed, ReadFailed, PartChanged} && (error == Complete ==> n > 0)
      ensures failed == (old(failed) || error == OpenFailed || error == ReadFailed)
    {
      hide Join;
      var at := off + total;
      var idx := FirstStartBehind(at);
      idx := idx - 1;
      var ok := OpenFile(idx);
      if !ok {
        return 0, OpenFailed;
      }
      ghost var before := p[..total];
      n, error := ReadFile(idx, p, total, at - starts[idx]);
      if Unchanged() && IsSlice(Join(disk.files), off, before) {
        PartHolds(disk.files, starts, size, idx, at);
        Delivered(disk.files, starts, idx, off, before, n);
        assert n > 0 ==> p[..total + n] == before + p[total..total + n];
      }
      if error == Eof {
        error := if n == 0 then PartChanged else Complete;
      }
    }

    /** ReadAt: with unchanged files it delivers exactly the bytes of the joined
        parts at off, all of them or up to the end of the stream. */
    method ReadAt(p: array<byte>, off: int) returns (total: nat, error: ReadError)
      requires Valid()
      modifies this, p
      ensures total <= p.Length
      ensures off < 0 <==> error == NegativeOffset
      ensures failed == (old(failed) || error == OpenFailed || error == ReadFailed)
      ensures Unchanged() ==> IsSlice(Join(disk.files), off, p[..total])
      ensures Unchanged() ==> error != PartChanged
      ensures Unchanged() && error == Eof ==> total < p.Length && off + total >= size
      ensures error == Complete ==> total == p.Length
    {
      if off < 0 {
        return 0, NegativeOffset;
      }
      total := 0;
      hide Join, Valid;
      while total < p.Length
        invariant total <= p.Length
        invariant Unchanged() ==> IsSlice(Join(disk.files), off, p[..total])
        invariant failed == old(failed)
      {
        if off + total >= size {
          return total, Eof;
        }
        var n, e := ReadTurn(p, off, total);
        total := total + n;
        if e != Complete {
          return total, e;
        }
      }
      return total, Complete;
    }
  }

  /** got is what s holds from off on. */
  ghost predicate IsSlice(s: Bytes, off: int, got: Bytes) {
    |got| > 0 ==> 0 <= off && off + |got| <= |s| && got == s[off..off + |got|]
  }

  /** The part found for an offset inside the stream holds the byte at that offset. */
  lemma PartHolds(files: seq<Bytes>, starts: seq<nat>, size: nat, idx: nat, at: nat)
    requires StartsOf(starts, size, files) && idx < |files| && at < size && starts[idx] <= at
    requires forall k :: idx < k < |starts| ==> at < starts[k]
    ensures at - starts[idx] < |files[idx]|
  {
    assert files[..idx + 1] == files[..idx] + [files[idx]];
    JoinAppend(files[..idx], files[idx]);
    assert files[..|files|] == files;
  }

  lemma {:induction false} JoinAt(files: seq<Bytes>, idx: nat)
    requires idx < |files|
    ensures |Join(files[..idx])| + |files[idx]| <= |Join(files)|
    ensures Join(files)[|Join(files[..idx])|..|Join(files[..idx])| + |files[idx]|] == files[idx]
  {
    var n := |files| - 1;
    if idx < n {
      JoinAt(files[..n], idx);
      assert files[..n][..idx] == files[..idx];
    }
  }

  lemma SliceOfSlice(s: Bytes, a: nat, b: nat, c: nat, d: nat)
    requires a <= b <= |s| && c <= d <= b - a
    ensures s[a..b][c..d] == s[a + c..a + d]
  {
    var t, u, v := s[a..b], s[a..b][c..d], s[a + c..a + d];
    forall i | 0 <= i < d - c
      ensures u[i] == v[i]
    {
      assert u[i] == t[c + i] == s[a + c + i];
    }
  }

  lemma Delivered(files: seq<Bytes>, starts: seq<nat>, idx: nat, off: nat, before: Bytes, n: nat)
    requires idx < |files| && |starts| == |files| && starts[idx] == |Join(files[..idx])|
    requires IsSlice(Join(files), off, before)
    requires starts[idx] <= off + |before| && off + |before| - starts[idx] + n <= |files[idx]|
    ensures var pos := off + |before| - starts[idx];
            IsSlice(Join(files), off, before + files[idx][pos..pos + n])
  {
    JoinAt(files, idx);
    var s, pos := Join(files), off + |before| - starts[idx];
    SliceOfSlice(s, starts[idx], starts[idx] + |files[idx]|, pos, pos + n);
    hide Join;
    var more := files[idx][pos..pos + n];
    assert more == s[off + |before|..off + |before| + n];
    if |before| > 0 {
      assert s[off..off + |before|] + more == s[off..off + |before| + n];
    }
  }
}
