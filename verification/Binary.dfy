/** Byte strings and the big-endian integers of the on-disk formats. */
module Binary {
  type byte = b: int | 0 <= b < 0x100
  type Bytes = seq<byte>

  const TWO_TO_THE_32: int := 0x1_0000_0000
  const TWO_TO_THE_63: int := 0x8000_0000_0000_0000
  const TWO_TO_THE_64: int := 0x1_0000_0000_0000_0000

  function Pow256(width: nat): (r: nat)
    ensures r > 0
  {
    if width == 0 then 1 else 256 * Pow256(width - 1)
  }

  /** The low `width` bytes of n, most significant first (binary.BigEndian.PutUint32, PutUint64). */
  function PutUint(n: nat, width: nat): (r: Bytes)
    ensures |r| == width
  {
    if width == 0 then [] else PutUint(n / 256, width - 1) + [n % 256]
  }

  /** The unsigned integer a byte string stands for (binary.BigEndian.Uint32, Uint64). */
  function GetUint(s: Bytes): nat
  {
    if |s| == 0 then 0 else GetUint(s[..|s| - 1]) * 256 + s[|s| - 1]
  }

  lemma {:induction false} GetUintBound(s: Bytes)
    ensures GetUint(s) < Pow256(|s|)
  {
    if |s| > 0 {
      GetUintBound(s[..|s| - 1]);
    }
  }

  lemma {:induction false} GetPut(n: nat, width: nat)
    requires n < Pow256(width)
    ensures GetUint(PutUint(n, width)) == n
  {
    if width > 0 {
      GetPut(n / 256, width - 1);
      var r := PutUint(n, width);
      assert r[..|r| - 1] == PutUint(n / 256, width - 1);
    }
  }

  lemma {:induction false} GetMore(s: Bytes, b: byte)
    ensures GetUint(s + [b]) == GetUint(s) * 256 + b
  {
    assert (s + [b])[..|s|] == s;
  }

  /** Most significant byte first. */
  lemma FourBytes(a: byte, b: byte, c: byte, d: byte)
    ensures var (w: int, x: int, y: int) := (a, b, c); GetUint([a, b, c, d]) == w * 0x100_0000 + x * 0x1_0000 + y * 0x100 + d
  {
    GetMore([], a);
    GetMore([a], b);
    GetMore([a, b], c);
    GetMore([a, b, c], d);
    assert [] + [a] == [a] && [a] + [b] == [a, b] && [a, b] + [c] == [a, b, c] && [a, b, c] + [d] == [a, b, c, d];
    hide GetUint;
  }

  lemma PutInjective(m: nat, n: nat, width: nat)
    requires m < Pow256(width) && n < Pow256(width)
    requires PutUint(m, width) == PutUint(n, width)
    ensures m == n
  {
    GetPut(m, width);
    GetPut(n, width);
  }

  lemma {:induction false} PutGet(s: Bytes)
    ensures PutUint(GetUint(s), |s|) == s
  {
    if |s| > 0 {
      PutGet(s[..|s| - 1]);
      assert GetUint(s) / 256 == GetUint(s[..|s| - 1]);
      assert s == s[..|s| - 1] + [s[|s| - 1]];
    }
  }

  lemma Widths()
    ensures Pow256(4) == TWO_TO_THE_32 && Pow256(8) == TWO_TO_THE_64
  {
    assert Pow256(4) == 0x1_0000_0000;
    assert Pow256(8) == Pow256(4) * Pow256(4) by {
      assert Pow256(5) == 256 * Pow256(4);
      assert Pow256(6) == 256 * Pow256(5);
      assert Pow256(7) == 256 * Pow256(6);
    }
  }

  /** A run of n zero bytes. */
  function Zeros(n: nat): (r: Bytes)
    ensures |r| == n
    ensures forall i :: 0 <= i < n ==> r[i] == 0
  {
    seq(n, _ => 0)
  }

  /** Two's complement: the value of an unsigned 64-bit word read as int64. */
  function Int64(n: int): (r: int)
    ensures -TWO_TO_THE_63 <= r < TWO_TO_THE_63
    ensures -TWO_TO_THE_63 <= n < TWO_TO_THE_63 ==> r == n
  {
    var w := n % TWO_TO_THE_64;
    if w < TWO_TO_THE_63 then w else w - TWO_TO_THE_64
  }

  // ------------------------------------------------------------------ division

  lemma MulBounds(a: int, b: int)
    requires a >= 0
    ensures b >= 1 ==> a * b >= a
    ensures b <= -1 ==> a * b <= -a
  {
    if b >= 1 {
      assert a * (b - 1) >= 0;
    } else if b <= -1 {
      assert a * (-b - 1) >= 0;
    }
  }

  lemma QuotientIs(n: nat, d: nat, q: nat, r: nat)
    requires r < d && n == d * q + r
    ensures n / d == q && n % d == r
  {
    var q', r' := n / d, n % d;
    assert n == d * q' + r';
    assert d * (q - q') == r' - r;
    MulBounds(d, q - q');
  }

  lemma Multiples(n: nat, d: nat)
    requires 0 < d <= n
    ensures (n - d) % d == n % d && (n - d) / d == n / d - 1
    ensures n % d == 0 && n != d ==> n >= 2 * d
  {
    var q, r := n / d, n % d;
    assert n == d * q + r;
    MulBounds(d, 1 - q);
    assert n - d == d * (q - 1) + r;
    QuotientIs(n - d, d, q - 1, r);
    if r == 0 && n != d {
      assert q != 1;
      MulBounds(d, q - 1);
    }
  }
}
