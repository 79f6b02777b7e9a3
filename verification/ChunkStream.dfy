/** The encrypted chunk stream: EncryptStream, DecryptStream and the chunk
    parameters they reuse, against recursive functions on byte strings. */
module ChunkStream {
  import opened Wrappers
  import opened Binary
  import opened Crypto
  import opened Io

  const PREFIX_LEN: nat := 5
  const FINAL: byte := 1

  /** One stream: the key, the associated-data prefix and the plaintext chunk size. */
  datatype Stream = Stream(suite: Suite, key: Bytes, aad: Bytes, chunkSize: nat) {
    ghost predicate Valid() {
      suite.Valid() && 0 < chunkSize && chunkSize + TAG_LEN < TWO_TO_THE_32
    }
  }

  datatype Error =
    | BadKey | MissingFinal | DataAfterFinal | ReadFlags | BadFlags | ReadLength | BadLength
    | ReadData | Corrupted | BadChunkSize | ReadPlaintext | WriteFailed

  datatype Outcome = Ok | Failed(error: Error)

  /** What a decryption wrote and how it ended. */
  datatype Decryption = Decryption(output: Bytes, outcome: Outcome)

  function Next(index: nat): (r: nat)
    ensures r < TWO_TO_THE_64
  {
    (index + 1) % TWO_TO_THE_64
  }

  function NonceOf(index: nat): (r: Bytes)
    ensures |r| == NONCE_LEN
  {
    Zeros(4) + PutUint(index, 8)
  }

  function AadOf(prefix: Bytes, index: nat, flags: byte): Bytes {
    prefix + PutUint(index, 8) + [flags]
  }

  function SealedChunk(st: Stream, index: nat, flags: byte, plain: Bytes): Bytes {
    st.suite.seal(st.key, NonceOf(index), AadOf(st.aad, index, flags), plain)
  }

  function OpenedChunk(st: Stream, index: nat, flags: byte, sealed: Bytes): Option<Bytes> {
    st.suite.open(st.key, NonceOf(index), AadOf(st.aad, index, flags), sealed)
  }

  function Chunk(st: Stream, index: nat, flags: byte, plain: Bytes): Bytes {
    var sealed := SealedChunk(st, index, flags, plain);
    [flags] + PutUint(|sealed|, 4) + sealed
  }

  /** The chunk stream of p when its first chunk has the given index. */
  function Encoded(st: Stream, index: nat, p: Bytes): Bytes
    requires st.chunkSize > 0
    decreases |p|
  {
    if |p| < st.chunkSize then Chunk(st, index, FINAL, p)
    else Chunk(st, index, 0, p[..st.chunkSize]) + Encoded(st, Next(index), p[st.chunkSize..])
  }

  /** The only other accepted form: the last full chunk carries the final mark. */
  function EncodedFull(st: Stream, index: nat, p: Bytes): Bytes
    requires 0 < st.chunkSize <= |p| && |p| % st.chunkSize == 0
    decreases |p|
  {
    if |p| == st.chunkSize then Chunk(st, index, FINAL, p)
    else
      Multiples(|p|, st.chunkSize);
      Chunk(st, index, 0, p[..st.chunkSize]) + EncodedFull(st, Next(index), p[st.chunkSize..])
  }

  /** The payload of the chunk at the head of s, once its framing is sound. */
  function Payload(s: Bytes): nat
    requires |s| >= PREFIX_LEN
  {
    GetUint(s[1..PREFIX_LEN])
  }

  /** DecryptStream, from the chunk with the given index on. */
  function Decoded(st: Stream, index: nat, s: Bytes): Decryption
    decreases |s|
  {
    if |s| == 0 then Decryption([], Failed(MissingFinal))
    else if s[0] != 0 && s[0] != FINAL then Decryption([], Failed(BadFlags))
    else if |s| < PREFIX_LEN then Decryption([], Failed(ReadLength))
    else
      var length := Payload(s);
      if length < TAG_LEN || length > st.chunkSize + TAG_LEN then Decryption([], Failed(BadLength))
      else if |s| < PREFIX_LEN + length then Decryption([], Failed(ReadData))
      else
        var unsealed := OpenedChunk(st, index, s[0], s[PREFIX_LEN..PREFIX_LEN + length]);
        var rest := s[PREFIX_LEN + length..];
        if unsealed.None? then Decryption([], Failed(Corrupted))
        else if s[0] != FINAL && |unsealed.value| != st.chunkSize then Decryption([], Failed(BadChunkSize))
        else if s[0] == FINAL then
          Decryption(unsealed.value, if |rest| == 0 then Ok else Failed(DataAfterFinal))
        else
          var tail := Decoded(st, Next(index), rest);
          Decryption(unsealed.value + tail.output, tail.outcome)
  }

  /** The decryption of a stream whose first chunk was opened to plain. */
  function AfterChunk(st: Stream, index: nat, flags: byte, plain: Bytes, rest: Bytes): Decryption {
    if flags == FINAL then Decryption(plain, if |rest| == 0 then Ok else Failed(DataAfterFinal))
    else
      var tail := Decoded(st, Next(index), rest);
      Decryption(plain + tail.output, tail.outcome)
  }

  function Encrypted(st: Stream, p: Bytes): Bytes
    requires st.chunkSize > 0
  {
    Encoded(st, 0, p)
  }

  function Decrypted(st: Stream, s: Bytes): Decryption {
    if |st.key| != KEY_LEN then Decryption([], Failed(BadKey)) else Decoded(st, 0, s)
  }

  // ---------------------------------------------------------------- round trip

  lemma ChunkDecodes(st: Stream, index: nat, flags: byte, plain: Bytes, rest: Bytes)
    requires st.Valid() && (flags == 0 || flags == FINAL)
    requires |plain| <= st.chunkSize && (flags == 0 ==> |plain| == st.chunkSize)
    ensures |Chunk(st, index, flags, plain)| == |plain| + PREFIX_LEN + TAG_LEN
    ensures Decoded(st, index, Chunk(st, index, flags, plain) + rest) == AfterChunk(st, index, flags, plain, rest)
  {
    var sealed := SealedChunk(st, index, flags, plain);
    var s := Chunk(st, index, flags, plain) + rest;
    Widths();
    GetPut(|sealed|, 4);
    assert s[1..PREFIX_LEN] == PutUint(|sealed|, 4);
    assert s[PREFIX_LEN..PREFIX_LEN + |sealed|] == sealed;
    assert s[PREFIX_LEN + |sealed|..] == rest;
  }

  lemma {:induction false} DecodeEncode(st: Stream, index: nat, p: Bytes)
    requires st.Valid()
    ensures Decoded(st, index, Encoded(st, index, p)) == Decryption(p, Ok)
    decreases |p|
  {
    hide Decoded;
    if |p| < st.chunkSize {
      ChunkDecodes(st, index, FINAL, p, []);
      assert Chunk(st, index, FINAL, p) + [] == Encoded(st, index, p);
    } else {
      ChunkDecodes(st, index, 0, p[..st.chunkSize], Encoded(st, Next(index), p[st.chunkSize..]));
      DecodeEncode(st, Next(index), p[st.chunkSize..]);
      assert p[..st.chunkSize] + p[st.chunkSize..] == p;
    }
  }

  lemma {:induction false} DecodeEncodeFull(st: Stream, index: nat, p: Bytes)
    requires st.Valid() && st.chunkSize <= |p| && |p| % st.chunkSize == 0
    ensures Decoded(st, index, EncodedFull(st, index, p)) == Decryption(p, Ok)
    decreases |p|
  {
    hide Decoded;
    if |p| == st.chunkSize {
      ChunkDecodes(st, index, FINAL, p, []);
      assert Chunk(st, index, FINAL, p) + [] == EncodedFull(st, index, p);
    } else {
      Multiples(|p|, st.chunkSize);
      ChunkDecodes(st, index, 0, p[..st.chunkSize], EncodedFull(st, Next(index), p[st.chunkSize..]));
      DecodeEncodeFull(st, Next(index), p[st.chunkSize..]);
      assert p[..st.chunkSize] + p[st.chunkSize..] == p;
    }
  }

  lemma HeadIsChunk(st: Stream, index: nat, s: Bytes)
    requires st.Valid() && |s| >= PREFIX_LEN && |s| >= PREFIX_LEN + Payload(s)
    requires OpenedChunk(st, index, s[0], s[PREFIX_LEN..PREFIX_LEN + Payload(s)]).Some?
    ensures var plain := OpenedChunk(st, index, s[0], s[PREFIX_LEN..PREFIX_LEN + Payload(s)]).value;
            && |plain| + TAG_LEN == Payload(s)
            && s == Chunk(st, index, s[0], plain) + s[PREFIX_LEN + Payload(s)..]
  {
    var length := Payload(s);
    var sealed := s[PREFIX_LEN..PREFIX_LEN + length];
    PutGet(s[1..PREFIX_LEN]);
    assert s == [s[0]] + s[1..PREFIX_LEN] + sealed + s[PREFIX_LEN + length..];
  }

  ghost predicate IsEncoding(st: Stream, index: nat, s: Bytes, p: Bytes)
    requires st.chunkSize > 0
  {
    || s == Encoded(st, index, p)
    || (st.chunkSize <= |p| && |p| % st.chunkSize == 0 && s == EncodedFull(st, index, p))
  }

  lemma ExtendEncoding(st: Stream, index: nat, plain: Bytes, s: Bytes, p: Bytes)
    requires st.chunkSize > 0 && |plain| == st.chunkSize && IsEncoding(st, Next(index), s, p)
    ensures IsEncoding(st, index, Chunk(st, index, 0, plain) + s, plain + p)
  {
    var whole := plain + p;
    assert whole[..st.chunkSize] == plain && whole[st.chunkSize..] == p;
    Multiples(|whole|, st.chunkSize);
  }

  /** Everything DecryptStream accepts is an encoding of what it returns. */
  lemma {:induction false} DecodeAcceptsOnlyEncodings(st: Stream, index: nat, s: Bytes)
    requires st.Valid() && Decoded(st, index, s).outcome == Ok
    ensures IsEncoding(st, index, s, Decoded(st, index, s).output)
    decreases |s|
  {
    HeadIsChunk(st, index, s);
    var length := Payload(s);
    var plain := OpenedChunk(st, index, s[0], s[PREFIX_LEN..PREFIX_LEN + length]).value;
    var rest := s[PREFIX_LEN + length..];
    if s[0] == FINAL {
      assert s == Chunk(st, index, FINAL, plain);
      if |plain| == st.chunkSize {
        QuotientIs(|plain|, st.chunkSize, 1, 0);
      }
    } else {
      DecodeAcceptsOnlyEncodings(st, Next(index), rest);
      ExtendEncoding(st, index, plain, rest, Decoded(st, Next(index), rest).output);
    }
  }

  /** DecryptStream inverts EncryptStream and accepts exactly two byte strings
      for each plaintext: the stream EncryptStream writes, and, for a nonempty
      whole number of chunks, the one whose last full chunk is marked final. */
  lemma DecryptCharacterized(st: Stream, s: Bytes, p: Bytes)
    requires st.Valid()
    ensures Decrypted(st, s) == Decryption(p, Ok) <==>
            && |st.key| == KEY_LEN
            && (|| s == Encrypted(st, p)
                || (st.chunkSize <= |p| && |p| % st.chunkSize == 0 && s == EncodedFull(st, 0, p)))
  {
    DecodeEncode(st, 0, p);
    if st.chunkSize <= |p| && |p| % st.chunkSize == 0 {
      DecodeEncodeFull(st, 0, p);
    }
    if Decrypted(st, s) == Decryption(p, Ok) {
      DecodeAcceptsOnlyEncodings(st, 0, s);
    }
  }

  lemma {:induction false} EncodedLength(st: Stream, index: nat, p: Bytes)
    requires st.Valid()
    ensures |Encoded(st, index, p)| == |p| + 21 * (|p| / st.chunkSize + 1)
    decreases |p|
  {
    if |p| < st.chunkSize {
      QuotientIs(|p|, st.chunkSize, 0, |p|);
    } else {
      EncodedLength(st, Next(index), p[st.chunkSize..]);
      Multiples(|p|, st.chunkSize);
    }
  }

  lemma NonceInjective(i: nat, j: nat)
    requires i < TWO_TO_THE_64 && j < TWO_TO_THE_64 && NonceOf(i) == NonceOf(j)
    ensures i == j
  {
    assert NonceOf(i)[4..] == PutUint(i, 8) && NonceOf(j)[4..] == PutUint(j, 8);
    Widths();
    PutInjective(i, j, 8);
  }

  /** One call of seal under the key of a stream. */
  datatype Sealing = Sealing(flags: byte, nonce: Bytes, aad: Bytes, plain: Bytes)

  /** The calls of seal that encrypt p, in order. */
  function Sealings(st: Stream, index: nat, p: Bytes): (r: seq<Sealing>)
    requires st.chunkSize > 0
    ensures |r| > 0
    decreases |p|
  {
    if |p| < st.chunkSize then [Sealing(FINAL, NonceOf(index), AadOf(st.aad, index, FINAL), p)]
    else
      [Sealing(0, NonceOf(index), AadOf(st.aad, index, 0), p[..st.chunkSize])]
      + Sealings(st, Next(index), p[st.chunkSize..])
  }

  /** The stream that these calls make. */
  function Assembled(st: Stream, calls: seq<Sealing>): Bytes {
    if |calls| == 0 then []
    else
      var sealed := st.suite.seal(st.key, calls[0].nonce, calls[0].aad, calls[0].plain);
      [calls[0].flags] + PutUint(|sealed|, 4) + sealed + Assembled(st, calls[1..])
  }

  lemma {:induction false} SealingsMakeStream(st: Stream, index: nat, p: Bytes)
    requires st.chunkSize > 0
    ensures Assembled(st, Sealings(st, index, p)) == Encoded(st, index, p)
    decreases |p|
  {
    hide NonceOf, AadOf, Next;
    var calls := Sealings(st, index, p);
    if |p| < st.chunkSize {
      assert calls[1..] == [];
      assert Chunk(st, index, FINAL, p) + [] == Chunk(st, index, FINAL, p);
    } else {
      SealingsMakeStream(st, Next(index), p[st.chunkSize..]);
      assert calls[1..] == Sealings(st, Next(index), p[st.chunkSize..]);
    }
  }

  lemma NextIs(index: nat, k: nat)
    requires index < TWO_TO_THE_64 && k > 0
    ensures (Next(index) + (k - 1)) % TWO_TO_THE_64 == (index + k) % TWO_TO_THE_64
  {
  }

  /** Call number k has four zero bytes and the 64-bit counter for its nonce; its
      associated data is the prefix, the counter and the flags, which are 1 for the
      last call only. */
  lemma {:induction false} NonceOfCall(st: Stream, index: nat, p: Bytes, k: nat)
    requires st.chunkSize > 0 && index < TWO_TO_THE_64 && k < |Sealings(st, index, p)|
    ensures |Sealings(st, index, p)| == |p| / st.chunkSize + 1
    ensures var (call, counter) := (Sealings(st, index, p)[k], PutUint((index + k) % TWO_TO_THE_64, 8));
            && call.flags == (if k == |p| / st.chunkSize then 1 else 0)
            && call.nonce == [0, 0, 0, 0] + counter && call.aad == st.aad + counter + [call.flags]
    decreases |p|
  {
    hide *;
    CountOfCalls(st, index, p);
    SealingsUnfold(st, index, p);
    CallFields(st, index);
    if |p| >= st.chunkSize {
      Multiples(|p|, st.chunkSize);
      if k > 0 {
        NextIs(index, k);
        NonceOfCall(st, Next(index), p[st.chunkSize..], k - 1);
        LaterCall(Sealings(st, index, p), k);
      }
    }
  }

  lemma LaterCall(calls: seq<Sealing>, k: nat)
    requires 0 < k < |calls|
    ensures calls[1..][k - 1] == calls[k]
  {
  }

  /** Call number k takes the k-th piece of p; the last one takes what is left. */
  lemma {:induction false} PieceOfCall(st: Stream, index: nat, p: Bytes, k: nat)
    requires st.chunkSize > 0 && k < |Sealings(st, index, p)|
    ensures |Sealings(st, index, p)| == |p| / st.chunkSize + 1 && 0 <= k * st.chunkSize <= |p|
    ensures var plain := Sealings(st, index, p)[k].plain;
            plain <= p[k * st.chunkSize..] && |plain| == if k == |p| / st.chunkSize then |p| - k * st.chunkSize else st.chunkSize
    decreases |p|
  {
    hide *;
    CountOfCalls(st, index, p);
    SealingsUnfold(st, index, p);
    if |p| < st.chunkSize {
      QuotientIs(|p|, st.chunkSize, 0, |p|);
      assert p[0..] == p;
    } else if k == 0 {
      Multiples(|p|, st.chunkSize);
      assert p[0..] == p;
    } else {
      Multiples(|p|, st.chunkSize);
      PieceOfCall(st, Next(index), p[st.chunkSize..], k - 1);
      LaterPiece(p, st.chunkSize, k);
      LaterCall(Sealings(st, index, p), k);
    }
  }

  lemma CallFields(st: Stream, index: nat)
    requires index < TWO_TO_THE_64
    ensures FINAL == 1 && index % TWO_TO_THE_64 == index && Next(index) < TWO_TO_THE_64
    ensures NonceOf(index) == [0, 0, 0, 0] + PutUint(index, 8)
    ensures forall flags :: AadOf(st.aad, index, flags) == st.aad + PutUint(index, 8) + [flags]
  {
    assert Zeros(4) == [0, 0, 0, 0];
  }

  lemma SealingsUnfold(st: Stream, index: nat, p: Bytes)
    requires st.chunkSize > 0
    ensures var calls := Sealings(st, index, p);
            if |p| < st.chunkSize then calls == [Sealing(FINAL, NonceOf(index), AadOf(st.aad, index, FINAL), p)]
            else
              && calls[0] == Sealing(0, NonceOf(index), AadOf(st.aad, index, 0), p[..st.chunkSize])
              && calls[1..] == Sealings(st, Next(index), p[st.chunkSize..])
  {
  }

  lemma LaterPiece(p: Bytes, n: nat, k: nat)
    requires k > 0 && n <= |p| && 0 <= (k - 1) * n <= |p| - n
    ensures k * n == n + (k - 1) * n && p[n..][(k - 1) * n..] == p[k * n..]
  {
  }

  lemma NonceIs(st: Stream, p: Bytes, k: nat)
    requires st.chunkSize > 0 && k < |Sealings(st, 0, p)| && k <= TWO_TO_THE_64
    ensures Sealings(st, 0, p)[k].nonce == NonceOf(if k < TWO_TO_THE_64 then k else 0)
  {
    hide *;
    CounterIs(k);
    NonceOfCall(st, 0, p, k);
    CallFields(st, if k < TWO_TO_THE_64 then k else 0);
  }

  lemma CounterIs(k: nat)
    requires k <= TWO_TO_THE_64
    ensures 0 < TWO_TO_THE_64 && (0 + k) % TWO_TO_THE_64 == if k < TWO_TO_THE_64 then k else 0
  {
  }

  lemma {:induction false} CountOfCalls(st: Stream, index: nat, p: Bytes)
    requires st.chunkSize > 0
    ensures |Sealings(st, index, p)| == |p| / st.chunkSize + 1
    decreases |p|
  {
    hide NonceOf, AadOf, Next;
    if |p| < st.chunkSize {
      QuotientIs(|p|, st.chunkSize, 0, |p|);
    } else {
      CountOfCalls(st, Next(index), p[st.chunkSize..]);
      Multiples(|p|, st.chunkSize);
    }
  }

  /** Encrypting p never uses a nonce twice exactly when its chunks are so few that
      the 64-bit counter does not wrap around. */
  lemma NoncesDistinct(st: Stream, p: Bytes)
    requires st.chunkSize > 0
    ensures var calls := Sealings(st, 0, p);
            && Assembled(st, calls) == Encrypted(st, p)
            && ((forall i, j :: 0 <= i < j < |calls| ==> calls[i].nonce != calls[j].nonce)
                <==> |p| / st.chunkSize + 1 <= TWO_TO_THE_64)
  {
    var calls := Sealings(st, 0, p);
    SealingsMakeStream(st, 0, p);
    CountOfCalls(st, 0, p);
    hide NonceOf, Sealings, Assembled, Encoded;
    if |calls| <= TWO_TO_THE_64 {
      forall i, j | 0 <= i < j < |calls|
        ensures calls[i].nonce != calls[j].nonce
      {
        NonceIs(st, p, i);
        NonceIs(st, p, j);
        if calls[i].nonce == calls[j].nonce {
          NonceInjective(i, j);
        }
      }
    } else {
      NonceIs(st, p, 0);
      NonceIs(st, p, TWO_TO_THE_64);
      assert calls[0].nonce == calls[TWO_TO_THE_64].nonce;
    }
  }

  // --------------------------------------------------------- truncation and splicing

  /** The framing alone, without any key: chunks up to and including one final chunk. */
  predicate Framed(chunkSize: nat, s: Bytes)
    decreases |s|
  {
    && |s| >= PREFIX_LEN
    && (s[0] == 0 || s[0] == FINAL)
    && TAG_LEN <= Payload(s) <= chunkSize + TAG_LEN
    && |s| >= PREFIX_LEN + Payload(s)
    && (if s[0] == FINAL then |s| == PREFIX_LEN + Payload(s)
        else Framed(chunkSize, s[PREFIX_LEN + Payload(s)..]))
  }

  lemma {:induction false} AcceptedIsFramed(st: Stream, index: nat, s: Bytes)
    requires Decoded(st, index, s).outcome == Ok
    ensures Framed(st.chunkSize, s)
    decreases |s|
  {
    if s[0] != FINAL {
      AcceptedIsFramed(st, Next(index), s[PREFIX_LEN + Payload(s)..]);
    }
  }

  lemma {:induction false} FramedPrefixFree(chunkSize: nat, s: Bytes, t: Bytes)
    requires Framed(chunkSize, s) && Framed(chunkSize, t) && s <= t
    ensures s == t
    decreases |s|
  {
    assert s[1..PREFIX_LEN] == t[1..PREFIX_LEN];
    var n := PREFIX_LEN + Payload(s);
    if s[0] != FINAL {
      FramedPrefixFree(chunkSize, s[n..], t[n..]);
      assert s == s[..n] + s[n..] && t == t[..n] + t[n..];
    }
  }

  /** Chunk streams are prefix-free, whatever the keys: no stream that some key
      accepts is a strict prefix of a stream that some key accepts. */
  lemma StreamsPrefixFree(st: Stream, st': Stream, s: Bytes, t: Bytes)
    requires st.chunkSize == st'.chunkSize && s <= t
    requires Decrypted(st, s).outcome == Ok && Decrypted(st', t).outcome == Ok
    ensures s == t
  {
    AcceptedIsFramed(st, 0, s);
    AcceptedIsFramed(st', 0, t);
    FramedPrefixFree(st.chunkSize, s, t);
  }

  lemma CutChunkRefused(st: Stream, index: nat, flags: byte, plain: Bytes, n: nat)
    requires st.Valid() && (flags == 0 || flags == FINAL) && |plain| <= st.chunkSize
    requires n < |Chunk(st, index, flags, plain)|
    ensures var d := Decoded(st, index, Chunk(st, index, flags, plain)[..n]); d.outcome != Ok && d.output == []
  {
    var sealed := SealedChunk(st, index, flags, plain);
    var cut := Chunk(st, index, flags, plain)[..n];
    if n >= PREFIX_LEN {
      Widths();
      GetPut(|sealed|, 4);
      assert Chunk(st, index, flags, plain)[1..PREFIX_LEN] == PutUint(|sealed|, 4);
      assert cut[1..PREFIX_LEN] == PutUint(|sealed|, 4);
    }
  }

  /** A stream cut anywhere is refused, and what came out before is a prefix of the plaintext. */
  lemma {:induction false} CutStreamRefused(st: Stream, index: nat, p: Bytes, n: nat)
    requires st.Valid() && n < |Encoded(st, index, p)|
    ensures var d := Decoded(st, index, Encoded(st, index, p)[..n]);
            d.outcome != Ok && d.output <= p
    decreases |p|
  {
    hide Decoded;
    if |p| < st.chunkSize {
      CutChunkRefused(st, index, FINAL, p, n);
    } else {
      var plain, later := p[..st.chunkSize], p[st.chunkSize..];
      var chunk, tail := Chunk(st, index, 0, plain), Encoded(st, Next(index), later);
      if n < |chunk| {
        CutChunkRefused(st, index, 0, plain, n);
        assert (chunk + tail)[..n] == chunk[..n];
      } else {
        var k := n - |chunk|;
        assert (chunk + tail)[..n] == chunk + tail[..k];
        ChunkDecodes(st, index, 0, plain, tail[..k]);
        CutStreamRefused(st, Next(index), later, k);
        assert p == plain + later;
      }
    }
  }

  // ------------------------------------------------------------ the streaming code

  /** Nonce and associated data of each chunk, built in buffers it reuses. */
  class ChunkParams {
    const prefix: Bytes
    const nonceBuf: array<byte>
    const aadBuf: array<byte>

    ghost predicate Valid()
      reads this, nonceBuf, aadBuf
    {
      && nonceBuf != aadBuf
      && nonceBuf.Length == NONCE_LEN && nonceBuf[..4] == Zeros(4)
      && aadBuf.Length == |prefix| + 9 && aadBuf[..|prefix|] == prefix
    }

    constructor (aadPrefix: Bytes)
      ensures Valid() && prefix == aadPrefix && fresh(nonceBuf) && fresh(aadBuf)
    {
      prefix := aadPrefix;
      nonceBuf := new byte[NONCE_LEN](_ => 0);
      aadBuf := new byte[|aadPrefix| + 9](i => if 0 <= i < |aadPrefix| then aadPrefix[i] else 0);
    }

    method Nonce(index: nat) returns (nonce: Bytes)
      requires Valid()
      modifies nonceBuf
      ensures Valid() && nonce == NonceOf(index)
    {
      var word := PutUint(index, 8);
      forall i | 0 <= i < 8 { nonceBuf[4 + i] := word[i]; }
      nonce := nonceBuf[..];
      assert nonce == nonceBuf[..4] + word;
    }

    method Aad(index: nat, flags: byte) returns (aad: Bytes)
      requires Valid()
      modifies aadBuf
      ensures Valid() && aad == AadOf(prefix, index, flags)
    {
      var n, word := aadBuf.Length - 9, PutUint(index, 8);
      forall i | 0 <= i < 8 { aadBuf[n + i] := word[i]; }
      aadBuf[n + 8] := flags;
      aad := aadBuf[..];
      assert aad == prefix + word + [flags];
    }
  }

  method WriteEncryptedChunk(dst: Sink, st: Stream, chunks: ChunkParams, index: nat, plain: Bytes, isFinal: bool)
    returns (ok: bool)
    requires chunks.Valid() && chunks.prefix == st.aad
    modifies dst, chunks.nonceBuf, chunks.aadBuf
    ensures chunks.Valid()
    ensures ok ==> dst.data == old(dst.data) + Chunk(st, index, if isFinal then FINAL else 0, plain)
    ensures old(dst.data) <= dst.data <= old(dst.data) + Chunk(st, index, if isFinal then FINAL else 0, plain)
    ensures dst.broken == (old(dst.broken) || !ok)
  {
    var flags: byte := if isFinal then FINAL else 0;
    var nonce := chunks.Nonce(index);
    var aad := chunks.Aad(index, flags);
    var sealed := st.suite.seal(st.key, nonce, aad, plain);
    var out := [flags] + PutUint(|sealed|, 4) + sealed;
    assert out == Chunk(st, index, flags, plain);
    var n;
    n, ok := dst.Write(out);
    assert out[..|out|] == out;
  }

  lemma EncodedUnfolds(st: Stream, index: nat, buf: Bytes, rest: Bytes)
    requires st.chunkSize > 0
    ensures |buf| < st.chunkSize ==> Encoded(st, index, buf) == Chunk(st, index, FINAL, buf)
    ensures |buf| == st.chunkSize ==>
            Encoded(st, index, buf + rest) == Chunk(st, index, 0, buf) + Encoded(st, Next(index), rest)
  {
    if |buf| == st.chunkSize {
      assert (buf + rest)[..st.chunkSize] == buf && (buf + rest)[st.chunkSize..] == rest;
    }
  }

  /** EncryptStream: on success dst received exactly the chunk stream of the
      plaintext; on any error it received a prefix of it. */
  method EncryptStream(dst: Sink, src: Source, st: Stream) returns (outcome: Outcome)
    requires st.chunkSize > 0
    modifies dst, src
    ensures outcome == Ok ==> |st.key| == KEY_LEN && !src.fails && dst.data == old(dst.data) + Encrypted(st, old(src.rest))
    ensures match outcome
            case Ok => true
            case Failed(BadKey) => |st.key| != KEY_LEN && dst.data == old(dst.data)
            case Failed(ReadPlaintext) => |st.key| == KEY_LEN && src.fails
            case Failed(error) => error == WriteFailed && |st.key| == KEY_LEN && dst.broken
    ensures |st.key| == KEY_LEN && !src.fails && !dst.broken ==> outcome == Ok
    ensures old(dst.data) <= dst.data <= old(dst.data) + Encrypted(st, old(src.rest))
    ensures old(dst.broken) ==> dst.broken
  {
    hide Encoded;
    if |st.key| != KEY_LEN {
      return Failed(BadKey);
    }
    ghost var all := dst.data + Encrypted(st, src.rest);
    var chunks := new ChunkParams(st.aad);
    var chunkIndex := 0;
    while true
      invariant chunks.Valid() && chunks.prefix == st.aad && fresh(chunks.nonceBuf) && fresh(chunks.aadBuf)
      invariant old(dst.data) <= dst.data
      invariant all == dst.data + Encoded(st, chunkIndex, src.rest)
      invariant old(dst.broken) ==> dst.broken
      decreases |src.rest|
    {
      var buf, fill := src.ReadFull(st.chunkSize);
      EncodedUnfolds(st, chunkIndex, buf, src.rest);
      if fill == ReadError {
        return Failed(ReadPlaintext);
      }
      var isFinal := fill == End || fill == Short;
      assert isFinal ==> buf + src.rest == buf;
      var ok := WriteEncryptedChunk(dst, st, chunks, chunkIndex, buf, isFinal);
      if !ok {
        return Failed(WriteFailed);
      }
      if isFinal {
        return Ok;
      }
      chunkIndex := Next(chunkIndex);
    }
  }

  lemma DecodedUnfolds(st: Stream, index: nat, s: Bytes, word: Bytes, sealed: Bytes, rest: Bytes)
    requires |s| >= 1 && (s[0] == 0 || s[0] == FINAL)
    requires |word| == 4 && |sealed| == GetUint(word) && s == [s[0]] + word + sealed + rest
    requires TAG_LEN <= |sealed| <= st.chunkSize + TAG_LEN
    ensures var plain := OpenedChunk(st, index, s[0], sealed);
            Decoded(st, index, s) ==
            if plain.None? then Decryption([], Failed(Corrupted))
            else if s[0] != FINAL && |plain.value| != st.chunkSize then Decryption([], Failed(BadChunkSize))
            else AfterChunk(st, index, s[0], plain.value, rest)
  {
    assert s[1..PREFIX_LEN] == word;
    assert s[PREFIX_LEN..PREFIX_LEN + |sealed|] == sealed && s[PREFIX_LEN + |sealed|..] == rest;
  }

  /** One chunk of the loop of DecryptStream, after its flag byte was read. */
  method ReadChunk(src: Source, st: Stream, chunks: ChunkParams, index: nat, flags: byte)
    returns (plain: Bytes, outcome: Outcome)
    requires chunks.Valid() && chunks.prefix == st.aad
    modifies src, chunks.nonceBuf, chunks.aadBuf
    ensures chunks.Valid()
    ensures outcome != Ok ==> Decoded(st, index, [flags] + old(src.rest)) == Decryption([], outcome)
    ensures outcome == Ok ==> |src.rest| < |old(src.rest)|
    ensures outcome == Ok ==> Decoded(st, index, [flags] + old(src.rest)) == AfterChunk(st, index, flags, plain, src.rest)
  {
    plain := [];
    ghost var s := [flags] + src.rest;
    if flags != 0 && flags != FINAL {
      return [], Failed(BadFlags);
    }
    var word, fill := src.ReadFull(4);
    if fill != Full {
      return [], Failed(ReadLength);
    }
    assert s[1..PREFIX_LEN] == word;
    var length := GetUint(word);
    if length < TAG_LEN || length > st.chunkSize + TAG_LEN {
      return [], Failed(BadLength);
    }
    var sealed;
    sealed, fill := src.ReadFull(length);
    if fill != Full {
      return [], Failed(ReadData);
    }
    DecodedUnfolds(st, index, s, word, sealed, src.rest);
    var nonce := chunks.Nonce(index);
    var aad := chunks.Aad(index, flags);
    var unsealed := st.suite.open(st.key, nonce, aad, sealed);
    if unsealed.None? {
      return [], Failed(Corrupted);
    }
    if flags != FINAL && |unsealed.value| != st.chunkSize {
      return [], Failed(BadChunkSize);
    }
    return unsealed.value, Ok;
  }

  /** What is left to decrypt when the loop of DecryptStream starts a turn. */
  function Remaining(st: Stream, index: nat, sawFinal: bool, rest: Bytes): Decryption {
    if sawFinal then Decryption([], if |rest| == 0 then Ok else Failed(DataAfterFinal)) else Decoded(st, index, rest)
  }

  lemma RemainingUnfolds(st: Stream, index: nat, sawFinal: bool, rest: Bytes)
    ensures |rest| == 0 ==> Remaining(st, index, sawFinal, rest) ==
                            Decryption([], if sawFinal then Ok else Failed(MissingFinal))
    ensures |rest| > 0 && sawFinal ==> Remaining(st, index, sawFinal, rest) == Decryption([], Failed(DataAfterFinal))
    ensures !sawFinal ==> Remaining(st, index, sawFinal, rest) == Decoded(st, index, rest)
  {
  }

  lemma AfterChunkIsRemaining(st: Stream, index: nat, flags: byte, plain: Bytes, rest: Bytes, d: Decryption)
    requires d == AfterChunk(st, index, flags, plain, rest)
    ensures d.output == plain + Remaining(st, Next(index), flags == FINAL, rest).output
    ensures d.outcome == Remaining(st, Next(index), flags == FINAL, rest).outcome
  {
  }

  method WritePlain(dst: Sink, plain: Bytes) returns (ok: bool)
    modifies dst
    ensures ok ==> dst.data == old(dst.data) + plain
    ensures old(dst.data) <= dst.data <= old(dst.data) + plain
    ensures dst.broken == (old(dst.broken) || !ok)
  {
    ok := true;
    if |plain| > 0 {
      var n;
      n, ok := dst.Write(plain);
      assert plain[..|plain|] == plain;
    }
  }

  /** One turn of the loop of DecryptStream, after the flag byte was read. */
  method DecryptChunk(dst: Sink, src: Source, st: Stream, chunks: ChunkParams, index: nat, flags: byte)
    returns (outcome: Outcome, ghost left: Decryption)
    requires chunks.Valid() && chunks.prefix == st.aad
    modifies dst, src, chunks.nonceBuf, chunks.aadBuf
    ensures chunks.Valid()
    ensures outcome == Ok ==>
            && left == Remaining(st, Next(index), flags == FINAL, src.rest)
            && |src.rest| < |old(src.rest)|
    ensures outcome != Ok && !dst.broken ==> left == Decryption([], outcome)
    ensures outcome == Ok || !dst.broken ==>
            && old(dst.data) + Decoded(st, index, [flags] + old(src.rest)).output == dst.data + left.output
            && Decoded(st, index, [flags] + old(src.rest)).outcome == left.outcome
    ensures old(dst.data) <= dst.data <= old(dst.data) + Decoded(st, index, [flags] + old(src.rest)).output
    ensures old(dst.broken) ==> dst.broken
  {
    hide Decoded;
    ghost var d := Decoded(st, index, [flags] + src.rest);
    var plain;
    plain, outcome := ReadChunk(src, st, chunks, index, flags);
    left := Decryption([], outcome);
    if outcome == Ok {
      left := Remaining(st, Next(index), flags == FINAL, src.rest);
      AfterChunkIsRemaining(st, index, flags, plain, src.rest, d);
      var ok := WritePlain(dst, plain);
      if !ok {
        outcome := Failed(WriteFailed);
      }
    }
  }

  /** DecryptStream: the outcome and the output of Decrypted, cut short only by
      an error of the reader or the writer. */
  method DecryptStream(dst: Sink, src: Source, st: Stream) returns (outcome: Outcome)
    modifies dst, src
    ensures src.fails ==> outcome != Ok
    ensures outcome == Ok || (!src.fails && !dst.broken) ==>
            dst.data == old(dst.data) + Decrypted(st, old(src.rest)).output && outcome == Decrypted(st, old(src.rest)).outcome
    ensures old(dst.data) <= dst.data <= old(dst.data) + Decrypted(st, old(src.rest)).output
    ensures old(dst.broken) ==> dst.broken
  {
    if |st.key| != KEY_LEN {
      return Failed(BadKey);
    }
    ghost var d := Decrypted(st, src.rest);
    ghost var all := dst.data + d.output;
    RemainingUnfolds(st, 0, false, src.rest);
    hide *;
    var chunks := new ChunkParams(st.aad);
    var chunkIndex, sawFinal := 0, false;
    ghost var left := d;
    while true
      invariant chunks.Valid() && chunks.prefix == st.aad && fresh(chunks.nonceBuf) && fresh(chunks.aadBuf)
      invariant left == Remaining(st, chunkIndex, sawFinal, src.rest)
      invariant old(dst.data) <= dst.data && all == dst.data + left.output && d.outcome == left.outcome
      invariant old(dst.broken) ==> dst.broken
      decreases |src.rest|
    {
      ghost var s := src.rest;
      RemainingUnfolds(st, chunkIndex, sawFinal, s);
      var first, fill := src.ReadFull(1);
      if fill == ReadError {
        return Failed(ReadFlags);
      }
      if fill == End {
        return if sawFinal then Ok else Failed(MissingFinal);
      }
      if sawFinal {
        return Failed(DataAfterFinal);
      }
      var flags := first[0];
      assert s == [flags] + src.rest;
      outcome, left := DecryptChunk(dst, src, st, chunks, chunkIndex, flags);
      if outcome != Ok {
        return;
      }
      sawFinal := flags == FINAL;
      chunkIndex := Next(chunkIndex);
    }
  }
}
