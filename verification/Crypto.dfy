/** The foreign primitives, as a record of functions. Valid() holds what the
    format relies on: AES-GCM opens exactly what it sealed (sections 7.1 and 7.2
    of NIST SP 800-38D); no secrecy is assumed. */
module Crypto {
  import opened Wrappers
  import opened Binary

  const KEY_LEN: nat := 32
  const NONCE_LEN: nat := 12
  const TAG_LEN: nat := 16
  const HASH_LEN: nat := 32

  /** seal and open take key, nonce, associated data and text; hkdf takes
      master key, salt and info. */
  datatype Suite = Suite(
    seal: (Bytes, Bytes, Bytes, Bytes) -> Bytes,
    open: (Bytes, Bytes, Bytes, Bytes) -> Option<Bytes>,
    sha256: Bytes -> Bytes,
    hkdf: (Bytes, Bytes, string) -> Bytes)
  {
    ghost predicate Valid() {
      && (forall k, n, a, p :: |seal(k, n, a, p)| == |p| + TAG_LEN)
      && (forall k, n, a, p :: open(k, n, a, seal(k, n, a, p)) == Some(p))
      && (forall k, n, a, c :: open(k, n, a, c).Some? ==> c == seal(k, n, a, open(k, n, a, c).value))
      && (forall b :: |sha256(b)| == HASH_LEN)
      && (forall k, s, i :: |hkdf(k, s, i)| == KEY_LEN)
    }
  }

  /** Such records exist: this one appends an empty tag. */
  lemma SomeSuite() returns (suite: Suite)
    ensures suite.Valid()
  {
    var tag: Bytes := seq(TAG_LEN, i => 0);
    suite := Suite(
      (k, n, a, p) => p + tag,
      (k, n, a, c) => if |c| >= TAG_LEN && c[|c| - TAG_LEN..] == tag then Some(c[..|c| - TAG_LEN]) else None,
      b => seq(HASH_LEN, i => 0),
      (k, s, i) => seq(KEY_LEN, i => 0));
  }
}
