/** The readers and writers the format code is given. */
module Io {
  import opened Binary

  /** An io.Writer: a write may take only some of the bytes and report an error. */
  class Sink {
    var data: Bytes
    var broken: bool

    constructor ()
      ensures data == [] && !broken
    {
      data, broken := [], false;
    }

    method Write(p: Bytes) returns (n: nat, ok: bool)
      modifies this
      ensures n <= |p| && data == old(data) + p[..n]
      ensures ok ==> n == |p|
      ensures broken == (old(broken) || !ok)
    {
      ok := *;
      n := |p|;
      if !ok {
        n :| 0 <= n <= |p|;
        broken := true;
      }
      data := data + p[..n];
    }
  }

  /** How io.ReadFull ended: buffer full, io.ErrUnexpectedEOF, io.EOF, or a read error. */
  datatype Fill = Full | Short | End | ReadError

  /** An io.Reader: some bytes, then the end of the stream or a read error. */
  class Source {
    var rest: Bytes
    const fails: bool

    constructor (data: Bytes, fails: bool)
      ensures rest == data && this.fails == fails
    {
      rest := data;
      this.fails := fails;
    }

    /** io.ReadFull into a buffer of n bytes. */
    method ReadFull(n: nat) returns (buf: Bytes, fill: Fill)
      requires n > 0
      modifies this
      ensures buf + rest == old(rest)
      ensures |buf| == if |old(rest)| < n then |old(rest)| else n
      ensures fill == if |old(rest)| >= n then Full
                      else if fails then ReadError
                      else if |old(rest)| == 0 then End else Short
    {
      var k := if |rest| < n then |rest| else n;
      buf := rest[..k];
      fill := if |rest| >= n then Full else if fails then ReadError else if |rest| == 0 then End else Short;
      rest := rest[k..];
    }
  }
}
