/** Little-endian integers inside byte buffers. */
module Bytes {
  import opened Types

  type bytes = seq<byte>

  function Pow256(w: nat): nat {
    if w == 0 then 1 else 256 * Pow256(w - 1)
  }

  const U8: nat := 0x100
  const U16: nat := 0x1_0000
  const U32: nat := 0x1_0000_0000
  const U64: nat := 0x1_0000_0000_0000_0000

  lemma Widths()
    ensures Pow256(1) == U8 && Pow256(2) == U16 && Pow256(4) == U32 && Pow256(8) == U64
  {
    assert Pow256(3) == 256 * Pow256(2);
    assert Pow256(5) == 256 * Pow256(4);
    assert Pow256(6) == 256 * Pow256(5);
    assert Pow256(7) == 256 * Pow256(6);
  }

  // Byte `i` of an integer, least significant first.
  function ByteAt(n: nat, i: nat): byte {
    if i == 0 then n % 256 else ByteAt(n / 256, i - 1)
  }

  // The `w` low bytes of `n`.
  function ToBytes(n: nat, w: nat): (b: bytes)
    ensures |b| == w
  {
    seq(w, i requires 0 <= i < w => ByteAt(n, i))
  }

  function FromBytes(b: bytes): nat {
    if b == [] then 0 else b[0] + 256 * FromBytes(b[1..])
  }

  /** An integer that fits its width is read back. */
  lemma {:induction false} FromToFits(n: nat, w: nat)
    requires n < Pow256(w)
    ensures FromBytes(ToBytes(n, w)) == n
  {
    if w > 0 {
      assert ToBytes(n, w)[1..] == ToBytes(n / 256, w - 1);
      FromToFits(n / 256, w - 1);
    }
  }

  /** Little-endian: byte `i` counts multiples of the `i`-th power of 256. */
  lemma {:induction false} LittleEndian(n: nat, w: nat, i: nat)
    requires i < w
    ensures Pow256(i) > 0 && ToBytes(n, w)[i] == n / Pow256(i) % 256
  {
    ByteIs(n, i);
  }

  lemma {:induction false} ByteIs(n: nat, i: nat)
    ensures Pow256(i) > 0 && ByteAt(n, i) == n / Pow256(i) % 256
  {
    if i > 0 {
      ByteIs(n / 256, i - 1);
      DivTwice(n, Pow256(i - 1));
    }
  }

  lemma DivTwice(n: nat, m: nat)
    requires m > 0
    ensures n / 256 / m == n / (256 * m)
  {
    var q, r := n / (256 * m), n % (256 * m);
    var t := r / 256;
    assert n == 256 * (m * q + t) + r % 256;
    assert n / 256 == m * q + t;
    assert 256 * t <= r < 256 * m;
    QuotientIs(n / 256, m, q, t);
  }

  lemma QuotientIs(a: nat, m: nat, q: nat, t: nat)
    requires m > 0 && a == m * q + t && t < m
    ensures a / m == q
  {
    var d := a / m;
    assert a == m * d + a % m;
    TimesGrows(m, d, q);
    TimesGrows(m, q, d);
  }

  lemma {:induction false} TimesGrows(m: nat, a: nat, b: nat)
    ensures a < b ==> m * a + m <= m * b
  {
    if a + 1 < b { TimesGrows(m, a, b - 1); }
  }

  // The `w`-byte integer at `off`.
  function Num(b: bytes, off: nat, w: nat): nat
    requires off + w <= |b|
  {
    FromBytes(b[off..off + w])
  }

  lemma NumPrefix(b: bytes, tail: bytes, off: nat, w: nat)
    requires off + w <= |b|
    ensures Num(b + tail, off, w) == Num(b, off, w)
  {
    assert (b + tail)[off..off + w] == b[off..off + w];
  }

  // The bytes `f` stand at position `off`.
  predicate Stands(b: bytes, off: nat, f: bytes) {
    off + |f| <= |b| && b[off..off + |f|] == f
  }

  // What stands as a whole stands in its two parts.
  lemma Split(b: bytes, off: nat, f: bytes, g: bytes)
    requires Stands(b, off, f + g)
    ensures Stands(b, off, f) && Stands(b, off + |f|, g)
  {
    var h := f + g;
    assert f == h[..|f|] && g == h[|f|..];
    assert b[off..off + |f|] == b[off..off + |h|][..|f|];
    assert b[off + |f|..off + |h|] == b[off..off + |h|][|f|..];
  }

  lemma NumStands(b: bytes, off: nat, n: nat, w: nat)
    requires n < Pow256(w) && Stands(b, off, ToBytes(n, w))
    ensures off + w <= |b| && Num(b, off, w) == n
  {
    FromToFits(n, w);
  }

  // ---- buffers ------------------------------------------------------------

  // Copy a byte string into the buffer.
  method PutBytes(data: array<byte>, offset: nat, b: bytes)
    requires offset + |b| <= data.Length
    modifies data
    ensures data[..offset + |b|] == old(data[..offset]) + b
    ensures forall k :: offset + |b| <= k < data.Length ==> data[k] == old(data[k])
  {
    var i := 0;
    while i < |b|
      invariant 0 <= i <= |b|
      invariant data[..offset + i] == old(data[..offset]) + b[..i]
      invariant forall k :: offset + i <= k < data.Length ==> data[k] == old(data[k])
    {
      data[offset + i] := b[i];
      assert data[..offset + i + 1] == data[..offset + i] + [b[i]];
      i := i + 1;
    }
    assert b[..i] == b;
  }

  // Copy an integer into the buffer, low byte first.
  method Put(data: array<byte>, offset: nat, n: nat, w: nat)
    requires offset + w <= data.Length
    modifies data
    ensures data[..offset + w] == old(data[..offset]) + ToBytes(n, w)
    ensures forall k :: offset + w <= k < data.Length ==> data[k] == old(data[k])
  {
    PutBytes(data, offset, ToBytes(n, w));
  }
}
