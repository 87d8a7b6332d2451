/** The null bitmap: single bits of a byte vector. */
module Bitmaps {
  import opened Types
  import opened Bytes

  // Bit `k` of an integer, lowest first.
  predicate TestBit(n: nat, k: nat) {
    if k == 0 then n % 2 == 1 else TestBit(n / 2, k - 1)
  }

  // The integer with bit `k` set to `on`.
  function PutBit(n: nat, k: nat, on: bool): nat {
    if k == 0 then n / 2 * 2 + (if on then 1 else 0) else PutBit(n / 2, k - 1, on) * 2 + n % 2
  }

  /** Setting or clearing one bit leaves the others as they were. */
  lemma {:induction false} PutBitLaw(n: nat, k: nat, on: bool, j: nat)
    ensures TestBit(PutBit(n, k, on), j) == if j == k then on else TestBit(n, j)
  {
    if j > 0 && k > 0 { PutBitLaw(n / 2, k - 1, on, j - 1); }
  }

  function Pow2(m: nat): nat { if m == 0 then 1 else 2 * Pow2(m - 1) }

  /** Bit `k` counts multiples of the `k`-th power of two. */
  lemma {:induction false} BitValue(n: nat, k: nat)
    ensures Pow2(k) > 0 && (TestBit(n, k) <==> n / Pow2(k) % 2 == 1)
  {
    if k > 0 {
      BitValue(n / 2, k - 1);
      HalfTwice(n, Pow2(k - 1));
    }
  }

  lemma HalfTwice(n: nat, m: nat)
    requires m > 0
    ensures n / 2 / m == n / (2 * m)
  {
    var q, r := n / (2 * m), n % (2 * m);
    var t := r / 2;
    assert n == 2 * (m * q + t) + r % 2;
    assert n / 2 == m * q + t;
    assert 2 * t <= r < 2 * m;
    QuotientIs(n / 2, m, q, t);
  }

  lemma {:induction false} PutBitFits(n: nat, k: nat, on: bool, m: nat)
    requires k < m && n < Pow2(m)
    ensures PutBit(n, k, on) < Pow2(m)
  {
    if k > 0 { PutBitFits(n / 2, k - 1, on, m - 1); }
  }

  // `|=` and `&= ~` with one bit of a byte.
  function WithBit(b: byte, k: nat, on: bool): byte
    requires k < 8
  {
    PutBitFits(b, k, on, 8);
    assert Pow2(4) == 16 && Pow2(8) == 256;
    PutBit(b, k, on)
  }

  // Bit `i` of a byte vector, lowest bit first.
  predicate BitAt(bits: seq<byte>, i: nat)
    requires i < 8 * |bits|
  {
    TestBit(bits[i / 8], i % 8)
  }

  /** Bit `i` is the one worth 2 to the power of `i` mod 8 in byte `i` / 8. */
  lemma BitAtMeaning(bits: seq<byte>, i: nat)
    requires i < 8 * |bits|
    ensures Pow2(i % 8) > 0 && (BitAt(bits, i) <==> bits[i / 8] / Pow2(i % 8) % 2 == 1)
  {
    BitValue(bits[i / 8], i % 8);
  }

  // Changing one bit of one byte changes that bit of the vector only.
  lemma BitChanged(bits: seq<byte>, index: nat, on: bool, i: nat)
    requires index < 8 * |bits| && i < 8 * |bits|
    ensures BitAt(bits[index / 8 := WithBit(bits[index / 8], index % 8, on)], i) == if i == index then on else BitAt(bits, i)
  {
    if i / 8 == index / 8 {
      PutBitLaw(bits[index / 8], index % 8, on, i % 8);
    }
  }

  lemma {:induction false} ZeroBit(k: nat)
    ensures !TestBit(0, k)
  {
    if k > 0 { ZeroBit(k - 1); }
  }

  lemma ZeroBits(bits: seq<byte>, i: nat)
    requires i < 8 * |bits| && bits[i / 8] == 0
    ensures !BitAt(bits, i)
  {
    ZeroBit(i % 8);
  }

  function BytesFor(n: nat): nat { (n + 7) / 8 }

  /** No more bytes than the bits need. */
  lemma BytesForLeast(n: nat)
    ensures 8 * BytesFor(n) >= n && forall m: nat :: 8 * m >= n ==> BytesFor(n) <= m
  {
  }

  class Bitmap {
    var size: nat
    var bits: seq<byte>

    ghost predicate Valid()
      reads this
    {
      |bits| == BytesFor(size)
    }

    constructor (size: nat)
      ensures Valid() && this.size == size && forall i :: 0 <= i < 8 * |bits| ==> !BitAt(bits, i)
    {
      this.size := size;
      bits := seq(BytesFor(size), _ => 0);
      new;
      forall i | 0 <= i < 8 * |bits| ensures !BitAt(bits, i) { ZeroBits(bits, i); }
    }

    // Growing keeps what is there and adds zeros; shrinking drops the rest.
    method Resize(n: nat)
      modifies this
      ensures Valid() && size == n
      ensures forall i :: 0 <= i < 8 * |bits| ==>
        (BitAt(bits, i) <==> i < 8 * |old(bits)| && BitAt(old(bits), i))
    {
      size := n;
      var m := BytesFor(n);
      ghost var was := bits;
      bits := if m <= |bits| then bits[..m] else bits + seq(m - |bits|, _ => 0);
      forall i | 0 <= i < 8 * |bits| ensures BitAt(bits, i) <==> i < 8 * |was| && BitAt(was, i) {
        if i >= 8 * |was| { ZeroBits(bits, i); }
      }
    }

    method Set(index: nat) returns (r: Result<()>)
      modifies this
      ensures r.Ok? <==> index < 8 * |old(bits)|
      ensures size == old(size) && |bits| == |old(bits)|
      ensures forall i :: 0 <= i < 8 * |bits| ==> (BitAt(bits, i) <==> i == index || BitAt(old(bits), i))
    {
      if index >= |bits| * 8 {
        return Err("Index out of range in bitmap Set");
      }
      ghost var was := bits;
      bits := bits[index / 8 := WithBit(bits[index / 8], index % 8, true)];
      forall i | 0 <= i < 8 * |bits| ensures BitAt(bits, i) <==> i == index || BitAt(was, i) {
        BitChanged(was, index, true, i);
      }
      r := Ok(());
    }

    method Clear(index: nat) returns (r: Result<()>)
      modifies this
      ensures r.Ok? <==> index < 8 * |old(bits)|
      ensures size == old(size) && |bits| == |old(bits)|
      ensures forall i :: 0 <= i < 8 * |bits| ==> (BitAt(bits, i) <==> i != index && BitAt(old(bits), i))
    {
      if index >= |bits| * 8 {
        return Err("Index out of range in bitmap Clear");
      }
      ghost var was := bits;
      bits := bits[index / 8 := WithBit(bits[index / 8], index % 8, false)];
      forall i | 0 <= i < 8 * |bits| ensures BitAt(bits, i) <==> i != index && BitAt(was, i) {
        BitChanged(was, index, false, i);
      }
      r := Ok(());
    }

    method Test(index: nat) returns (r: Result<bool>)
      ensures r.Ok? <==> index < 8 * |bits|
      ensures r.Ok? ==> r.value == BitAt(bits, index)
    {
      if index >= |bits| * 8 {
        return Err("Index out of range in bitmap Test");
      }
      r := Ok(TestBit(bits[index / 8], index % 8));
    }
  }
}
