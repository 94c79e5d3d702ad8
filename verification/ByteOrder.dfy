/** Bytes and big-endian integers. */
module ByteOrder {
  import opened Wrappers

  type Byte = x: int | 0 <= x < 256

  const MAX_INT16 := 32767
  const MAX_INT32 := 2147483647
  const TWO_16 := 65536
  const TWO_31 := 2147483648
  const TWO_32 := 4294967296
  const TWO_63 := 9223372036854775808
  const TWO_64 := 18446744073709551616

  function Pow256(n: nat): nat { if n == 0 then 1 else 256 * Pow256(n - 1) }

  /** The low `n` bytes of a number, most significant first. */
  function BE(x: nat, n: nat): (r: seq<Byte>)
    ensures |r| == n
  {
    if n == 0 then [] else BE(x / 256, n - 1) + [x % 256]
  }

  function FromBE(b: seq<Byte>): nat {
    if b == [] then 0 else FromBE(b[..|b| - 1]) * 256 + b[|b| - 1]
  }

  lemma {:induction false} BERoundTrip(x: nat, n: nat)
    requires x < Pow256(n)
    ensures FromBE(BE(x, n)) == x
  {
    if n > 0 {
      BERoundTrip(x / 256, n - 1);
      var r := BE(x / 256, n - 1);
      assert (r + [x % 256])[..n - 1] == r;
    }
  }

  lemma PowValues()
    ensures Pow256(2) == TWO_16 && Pow256(4) == TWO_32 && Pow256(8) == TWO_64
  {
    assert Pow256(1) == 256;
    assert Pow256(3) == 256 * Pow256(2);
    assert Pow256(4) == 256 * Pow256(3);
    assert Pow256(5) == 256 * Pow256(4);
    assert Pow256(6) == 256 * Pow256(5);
    assert Pow256(7) == 256 * Pow256(6);
  }

  /** Conversions between signed and unsigned 32- and 64-bit integers. */
  function U32(x: int): nat { x % TWO_32 }
  function S32(x: nat): int { if x % TWO_32 < TWO_31 then x % TWO_32 else x % TWO_32 - TWO_32 }
  function U64(x: int): nat { x % TWO_64 }
  function S64(x: nat): int { if x % TWO_64 < TWO_63 then x % TWO_64 else x % TWO_64 - TWO_64 }

  /** Conversion to a signed 32-bit integer: the identity exactly on its range. */
  function Wrap32(x: int): (r: int)
    ensures r == x <==> -TWO_31 <= x < TWO_31
  {
    S32(U32(x))
  }

  lemma WrapShift(x: int, k: int)
    ensures Wrap32(x + k * TWO_32) == Wrap32(x)
  {
    assert (x + k * TWO_32) / TWO_32 == x / TWO_32 + k;
  }

  lemma WrapSum(x: int, y: int)
    ensures Wrap32(Wrap32(x) + y) == Wrap32(x + y)
  {
    var k := if x % TWO_32 < TWO_31 then x / TWO_32 else x / TWO_32 + 1;
    assert x == Wrap32(x) + k * TWO_32;
    assert Wrap32(x) + y + k * TWO_32 == x + y;
    WrapShift(Wrap32(x) + y, k);
  }

  /** An unsigned integer of `n` bytes at a position; None where slicing would fail. */
  function Uint(b: seq<Byte>, at: int, n: nat): Option<nat> {
    if 0 <= at && at + n <= |b| then Some(FromBE(b[at..at + n])) else None
  }

  /** `piece` stands in `b` at a position. */
  ghost predicate Stands<T>(b: seq<T>, at: int, piece: seq<T>) {
    0 <= at && at + |piece| <= |b| && b[at..at + |piece|] == piece
  }

  lemma StandsConcat<T>(b: seq<T>, at: int, x: seq<T>, y: seq<T>)
    requires Stands(b, at, x + y)
    ensures Stands(b, at, x) && Stands(b, at + |x|, y)
  {
    assert b[at..at + |x|] == (x + y)[..|x|];
    assert b[at + |x|..at + |x + y|] == (x + y)[|x|..];
  }

  lemma StandsWhole<T>(b: seq<T>)
    ensures Stands(b, 0, b)
  {
    assert b[0..|b|] == b;
  }

  lemma StandsTwo<T>(b: seq<T>, at: nat, x: T, y: T)
    requires Stands(b, at, [x, y])
    ensures at + 2 <= |b| && b[at] == x && b[at + 1] == y
  {
    assert b[at..at + 2][0] == x && b[at..at + 2][1] == y;
  }

  lemma UintReads(b: seq<Byte>, at: int, x: nat, n: nat)
    requires Stands(b, at, BE(x, n)) && x < Pow256(n)
    ensures Uint(b, at, n) == Some(x)
  {
    BERoundTrip(x, n);
  }

  /** Signed integers as they are read back from the bytes of their unsigned form. */
  lemma Reads32(b: seq<Byte>, at: nat, x: int)
    requires Stands(b, at, BE(U32(x), 4))
    ensures S32(FromBE(b[at..at + 4])) == Wrap32(x)
  {
    hide BE;
    hide FromBE;
    PowValues();
    BERoundTrip(U32(x), 4);
  }

  lemma Reads64(b: seq<Byte>, at: nat, x: int)
    requires Stands(b, at, BE(U64(x), 8)) && -TWO_63 <= x < TWO_63
    ensures S64(FromBE(b[at..at + 8])) == x
  {
    hide BE;
    hide FromBE;
    PowValues();
    BERoundTrip(U64(x), 8);
  }
}
