/** TAR streams of regular files: names, sizes, contents and 512-byte padding.
    How a header is encoded (the pax interchange format of IEEE Std 1003.1) is a
    parameter. */
module Tar {
  import opened Binary
  import Paths

  const BLOCK: nat := 512

  /** One entry as a reader sees it; content is shorter than size only when the stream ends in it. */
  datatype Item = Item(name: string, regular: bool, size: nat, content: Bytes)

  datatype Next = EndOfArchive | BadHeader | Entry(name: string, regular: bool, size: nat, headerLen: nat)

  /** The header codec of the TAR library. */
  datatype Codec = Codec(encode: (string, nat) -> Bytes, next: Bytes -> Next) {
    ghost predicate Valid() {
      && (forall name, size :: 0 < |encode(name, size)| && |encode(name, size)| % BLOCK == 0)
      && (forall name, size, rest: Bytes :: Paths.ValidatePath(name).None? ==>
            next(encode(name, size) + rest) == Entry(name, true, size, |encode(name, size)|))
      && (forall rest: Bytes :: next(Zeros(2 * BLOCK) + rest) == EndOfArchive)
      && next([]) == EndOfArchive
    }
  }

  /** The bytes that fill the last block of n bytes. */
  function Padding(n: nat): (r: nat)
    ensures r < BLOCK
  {
    if n % BLOCK == 0 then 0 else BLOCK - n % BLOCK
  }

  function ItemBytes(c: Codec, item: Item): Bytes {
    c.encode(item.name, item.size) + item.content + Zeros(Padding(item.size))
  }

  /** A sequence of entries without the end-of-archive blocks. */
  function Layout(c: Codec, items: seq<Item>): Bytes {
    if |items| == 0 then [] else Layout(c, items[..|items| - 1]) + ItemBytes(c, items[|items| - 1])
  }

  function Archive(c: Codec, items: seq<Item>): Bytes { Layout(c, items) + Zeros(2 * BLOCK) }

  /** A complete entry: what the header declares is there. */
  predicate Complete(item: Item) { item.regular && |item.content| == item.size }

  predicate Writable(item: Item) { Complete(item) && Paths.ValidatePath(item.name).None? }

  // -------------------------------------------------------------------------- reading

  /** The entries of a stream, and whether it ended cleanly: with nothing behind the
      blocks at the end, or behind the content of an entry, where padding may be
      missing. */
  datatype Section = Section(items: seq<Item>, clean: bool)

  function Parse(c: Codec, s: Bytes): Section
    decreases |s|
  {
    match c.next(s)
    case EndOfArchive => Section([], |s| <= 2 * BLOCK)
    case BadHeader => Section([], false)
    case Entry(name, regular, size, headerLen) =>
      if headerLen == 0 || headerLen > |s| then Section([], false)
      else
        var end := headerLen + size;
        var item := Item(name, regular, size, if end <= |s| then s[headerLen..end] else s[headerLen..]);
        if end + Padding(size) > |s| then Section([item], end <= |s|)
        else
          var rest := Parse(c, s[end + Padding(size)..]);
          Section([item] + rest.items, rest.clean)
  }

  /** A stream as it arrives: `whole` when it did not stop with an error. */
  datatype Stream = Stream(data: Bytes, whole: bool)

  /** A whole archive. */
  function Written(c: Codec, items: seq<Item>): Stream { Stream(Archive(c, items), true) }

  function Received(c: Codec, s: Stream): Section {
    var section := Parse(c, s.data);
    Section(section.items, section.clean && s.whole)
  }

  lemma ParseUnfolds(c: Codec, s: Bytes, header: Bytes, item: Item, rest: Bytes)
    requires |item.content| == item.size && |header| > 0
    requires s == header + item.content + Zeros(Padding(item.size)) + rest
    requires c.next(s) == Entry(item.name, item.regular, item.size, |header|)
    ensures var tail := Parse(c, rest);
            Parse(c, s) == Section([item] + tail.items, tail.clean)
  {
    hide Padding;
    var end := |header| + item.size;
    assert s[|header|..end] == item.content;
    assert s[end + Padding(item.size)..] == rest;
  }

  lemma HeaderIsNext(c: Codec, name: string, size: nat, rest: Bytes)
    requires c.Valid() && Paths.ValidatePath(name).None?
    ensures 0 < |c.encode(name, size)|
    ensures c.next(c.encode(name, size) + rest) == Entry(name, true, size, |c.encode(name, size)|)
  {
    hide Paths.ValidatePath;
  }

  lemma ParseOne(c: Codec, item: Item, rest: Bytes)
    requires c.Valid() && Writable(item)
    ensures var tail := Parse(c, rest);
            Parse(c, ItemBytes(c, item) + rest) == Section([item] + tail.items, tail.clean)
  {
    hide Parse, Codec.Valid, Padding, Paths.ValidatePath;
    var header := c.encode(item.name, item.size);
    var s, after := ItemBytes(c, item) + rest, item.content + Zeros(Padding(item.size)) + rest;
    assert s == header + after;
    HeaderIsNext(c, item.name, item.size, after);
    ParseUnfolds(c, s, header, item, rest);
  }

  lemma {:induction false} ParseLayout(c: Codec, items: seq<Item>, rest: Bytes)
    requires c.Valid() && forall i :: 0 <= i < |items| ==> Writable(items[i])
    ensures var tail := Parse(c, rest);
            Parse(c, Layout(c, items) + rest) == Section(items + tail.items, tail.clean)
    decreases |items|
  {
    hide Parse, ItemBytes, Writable;
    if |items| == 0 {
      assert Layout(c, items) + rest == rest;
      assert items + Parse(c, rest).items == Parse(c, rest).items;
    } else {
      var n := |items| - 1;
      var last := ItemBytes(c, items[n]) + rest;
      assert Layout(c, items) + rest == Layout(c, items[..n]) + last;
      ParseOne(c, items[n], rest);
      ParseLayout(c, items[..n], last);
      assert items[..n] + ([items[n]] + Parse(c, rest).items) == items + Parse(c, rest).items;
    }
  }

  /** A written archive is read back entry by entry. */
  lemma ParseArchive(c: Codec, items: seq<Item>)
    requires c.Valid() && forall i :: 0 <= i < |items| ==> Writable(items[i])
    ensures Parse(c, Archive(c, items)) == Section(items, true)
  {
    ParseLayout(c, items, Zeros(2 * BLOCK));
    assert Zeros(2 * BLOCK) + [] == Zeros(2 * BLOCK);
  }

  /** An archive is a whole number of blocks of 512 bytes and ends in two of zeros; no
      entry is padded with a whole block. */
  lemma {:induction false} ArchiveBlocks(c: Codec, items: seq<Item>)
    requires c.Valid() && forall i :: 0 <= i < |items| ==> Writable(items[i])
    ensures |Layout(c, items)| % 512 == 0 && Archive(c, items) == Layout(c, items) + Zeros(1024)
    ensures forall item :: item in items ==> |ItemBytes(c, item)| < |c.encode(item.name, item.size)| + item.size + 512
    decreases |items|
  {
    hide *;
    LayoutUnfolds(c, items);
    if |items| > 0 {
      var n := |items| - 1;
      ArchiveBlocks(c, items[..n]);
      ItemBlocks(c, items[n]);
      SumOfBlocks(|Layout(c, items[..n])|, |ItemBytes(c, items[n])|);
      assert forall item :: item in items ==> item in items[..n] || item == items[n];
    }
  }

  lemma LayoutUnfolds(c: Codec, items: seq<Item>)
    ensures BLOCK == 512 && Archive(c, items) == Layout(c, items) + Zeros(2 * BLOCK)
    ensures Layout(c, items) ==
            if |items| == 0 then [] else Layout(c, items[..|items| - 1]) + ItemBytes(c, items[|items| - 1])
  {
    hide ItemBytes;
  }

  lemma ItemBlocks(c: Codec, item: Item)
    requires c.Valid() && Writable(item)
    ensures |ItemBytes(c, item)| % 512 == 0 && |ItemBytes(c, item)| < |c.encode(item.name, item.size)| + item.size + 512
  {
    hide Paths.ValidatePath;
    assert |c.encode(item.name, item.size)| % BLOCK == 0;
  }

  lemma SumOfBlocks(m: nat, n: nat)
    requires m % 512 == n % 512 == 0
    ensures (m + n) % 512 == 0
  {
  }

  /** What is wrong at the end of a stream is found: something behind the zero blocks,
      a header that is none, or content that is cut off. */
  lemma DamagedArchive(c: Codec, items: seq<Item>, extra: Bytes, name: string, size: nat)
    requires c.Valid() && forall i :: 0 <= i < |items| ==> Writable(items[i])
    ensures extra != [] ==> !Parse(c, Archive(c, items) + extra).clean
    ensures c.next(extra).BadHeader? ==> !Parse(c, Layout(c, items) + extra).clean
    ensures Paths.ValidatePath(name).None? && |extra| < size ==>
              !Parse(c, Layout(c, items) + c.encode(name, size) + extra).clean
  {
    hide Layout, Writable, Paths.ValidatePath, Parse;
    hide Codec.Valid, Archive;
    ParseEnds(c, extra);
    ParseLayout(c, items, Zeros(2 * BLOCK) + extra);
    LayoutUnfolds(c, items);
    ThreePieces(Layout(c, items), Zeros(2 * BLOCK), extra);
    ParseLayout(c, items, extra);
    if Paths.ValidatePath(name).None? && |extra| < size {
      ParseCut(c, name, size, extra);
      ParseLayout(c, items, c.encode(name, size) + extra);
      ThreePieces(Layout(c, items), c.encode(name, size), extra);
    }
  }

  lemma ThreePieces(a: Bytes, b: Bytes, d: Bytes)
    ensures a + b + d == a + (b + d)
  {
  }

  lemma ParseEnds(c: Codec, extra: Bytes)
    requires c.Valid()
    ensures extra != [] ==> !Parse(c, Zeros(2 * BLOCK) + extra).clean
    ensures c.next(extra).BadHeader? ==> !Parse(c, extra).clean
  {
    hide Paths.ValidatePath;
    assert c.next(Zeros(2 * BLOCK) + extra) == EndOfArchive;
  }

  lemma ParseCut(c: Codec, name: string, size: nat, content: Bytes)
    requires c.Valid() && Paths.ValidatePath(name).None? && |content| < size
    ensures !Parse(c, c.encode(name, size) + content).clean
  {
    HeaderIsNext(c, name, size, content);
    hide Paths.ValidatePath, Codec.Valid;
  }

  lemma {:induction false} LayoutSplit(c: Codec, items: seq<Item>, k: nat)
    requires k <= |items|
    ensures Layout(c, items) == Layout(c, items[..k]) + Layout(c, items[k..])
    decreases |items|
  {
    hide ItemBytes;
    if k == |items| {
      assert items[..k] == items;
    } else {
      var n := |items| - 1;
      LayoutSplit(c, items[..n], k);
      assert items[..n][..k] == items[..k] && items[..n][k..] == items[k..][..n - k];
      assert items[k..][n - k] == items[n];
    }
  }

  /** Reading from the offset of entry k gives entry k and what follows it. */
  lemma ParseFromOffset(c: Codec, items: seq<Item>, k: nat)
    requires c.Valid() && k <= |items| && forall i :: 0 <= i < |items| ==> Writable(items[i])
    ensures |Layout(c, items[..k])| <= |Archive(c, items)|
    ensures Parse(c, Archive(c, items)[|Layout(c, items[..k])|..]) == Section(items[k..], true)
  {
    hide Parse, Layout, Writable;
    LayoutSplit(c, items, k);
    assert Archive(c, items)[|Layout(c, items[..k])|..] == Archive(c, items[k..]);
    ParseArchive(c, items[k..]);
  }

  /** Offsets of later entries are larger. */
  lemma OffsetsIncrease(c: Codec, items: seq<Item>, j: nat, k: nat)
    requires c.Valid() && j < k <= |items|
    ensures |Layout(c, items[..j])| < |Layout(c, items[..k])|
  {
    LayoutSplit(c, items[..k], j);
    assert items[..k][..j] == items[..j];
    var later := items[..k][j..];
    assert |ItemBytes(c, later[|later| - 1])| > 0;
  }

  // -------------------------------------------------------------------------- writing

  /** tar.Writer on a counting writer: padding of an entry is written with the next one. */
  class TarWriter {
    const codec: Codec
    var out: Bytes
    var pad: nat
    var left: nat
    /** Whether the underlying writer has refused a write. */
    var failed: bool
    ghost var items: seq<Item>

    /** No entry is half written; the padding of the last one may be pending. */
    ghost predicate Valid()
      reads this
    {
      left == 0 && out + Zeros(pad) == Layout(codec, items)
    }

    /** An entry of this name and size was started and got these bytes so far. */
    ghost predicate Started(before: seq<Item>, name: string, size: nat, got: Bytes)
      reads this
    {
      && |got| <= size && left == size - |got| && pad == Padding(size)
      && out == Layout(codec, before) + codec.encode(name, size) + got
    }

    constructor (codec: Codec)
      ensures this.codec == codec && Valid() && items == [] && out == [] && !failed
    {
      this.codec := codec;
      out, pad, left, items, failed := [], 0, 0, [], false;
    }

    /** A write to the underlying writer: all of it, or a part of it with an error. */
    method Put(p: Bytes) returns (ok: bool)
      modifies this`out, this`failed
      ensures failed == (old(failed) || !ok)
      ensures if ok then out == old(out) + p else exists n :: 0 <= n <= |p| && out == old(out) + p[..n]
    {
      var n := |p|;
      ok := *;
      if !ok {
        failed := true;
        n :| 0 <= n <= |p|;
      }
      assert p[..|p|] == p;
      out := out + p[..n];
    }

    method Flush() returns (ok: bool)
      requires Valid()
      modifies this`out, this`pad, this`failed
      ensures failed == (old(failed) || !ok)
      ensures ok ==> Valid() && pad == 0 && out == Layout(codec, items)
    {
      ok := Put(Zeros(pad));
      if ok {
        pad := 0;
        assert out + Zeros(0) == out;
      }
    }

    method WriteHeader(name: string, size: nat) returns (ok: bool)
      requires Valid()
      modifies this`out, this`pad, this`left, this`failed
      ensures failed == (old(failed) || !ok)
      ensures ok ==> Started(items, name, size, [])
    {
      ok := Flush();
      if !ok {
        return;
      }
      ok := Put(codec.encode(name, size));
      left, pad := size, Padding(size);
      assert out + [] == out;
    }

    method Write(p: Bytes, ghost name: string, ghost size: nat, ghost got: Bytes) returns (ok: bool)
      requires Started(items, name, size, got) && |p| <= left
      modifies this`out, this`left, this`failed
      ensures failed == (old(failed) || !ok)
      ensures ok ==> Started(items, name, size, got + p)
    {
      ok := Put(p);
      left := left - |p|;
    }

    /** A complete entry is part of the archive. */
    ghost method Finish(name: string, size: nat, content: Bytes)
      requires Started(items, name, size, content) && |content| == size
      modifies this`items
      ensures Valid() && items == old(items) + [Item(name, true, size, content)]
    {
      items := items + [Item(name, true, size, content)];
      assert items[..|items| - 1] == old(items);
      assert out + Zeros(pad) == Layout(codec, old(items)) + ItemBytes(codec, items[|items| - 1]);
    }

    method Close() returns (ok: bool)
      requires Valid()
      modifies this`out, this`pad, this`failed
      ensures failed == (old(failed) || !ok)
      ensures ok ==> out == Archive(codec, items)
    {
      ok := Flush();
      if ok {
        ok := Put(Zeros(2 * BLOCK));
      }
    }
  }
}
