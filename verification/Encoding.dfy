/** Fixed-width integers in byte strings. */
module Encoding {
  import opened Store

  /** Big-endian, `width` bytes. */
  function BigEndian(n: nat, width: nat): (b: Bytes)
    ensures |b| == width
  {
    if width == 0 then [] else BigEndian(n / 256, width - 1) + [n % 256]
  }

  function FromBigEndian(b: Bytes): nat {
    if b == [] then 0 else FromBigEndian(b[..|b| - 1]) * 256 + b[|b| - 1]
  }

  function Pow256(width: nat): nat {
    if width == 0 then 1 else 256 * Pow256(width - 1)
  }

  lemma {:induction false} BigEndianRound(n: nat, width: nat)
    requires n < Pow256(width)
    ensures FromBigEndian(BigEndian(n, width)) == n
  {
    if width > 0 {
      BigEndianRound(n / 256, width - 1);
      var b := BigEndian(n, width);
      assert b[..|b| - 1] == BigEndian(n / 256, width - 1);
    }
  }

  lemma {:induction false} BigEndianBound(b: Bytes)
    ensures FromBigEndian(b) < Pow256(|b|)
  {
    if b != [] { BigEndianBound(b[..|b| - 1]); }
  }

  /** Decoding loses nothing: the other direction of the round trip. */
  lemma {:induction false} FromBigEndianRound(b: Bytes)
    ensures BigEndian(FromBigEndian(b), |b|) == b
  {
    if b != [] {
      var front, last := b[..|b| - 1], b[|b| - 1];
      FromBigEndianRound(front);
      assert FromBigEndian(b) / 256 == FromBigEndian(front) && FromBigEndian(b) % 256 == last;
      assert b == front + [last];
    }
  }

  /** A part of something that lies in a larger byte string. */
  lemma Slice(whole: Bytes, off: nat, b: Bytes, i: nat, j: nat)
    requires off + |b| <= |whole| && whole[off..off + |b|] == b && i <= j <= |b|
    ensures whole[off + i..off + j] == b[i..j]
  {
    forall n | 0 <= n < j - i ensures whole[off + i..off + j][n] == b[i..j][n] {
      assert whole[off..off + |b|][i + n] == b[i + n];
    }
  }

  const TWO63 := 0x8000_0000_0000_0000
  const TWO64 := 0x1_0000_0000_0000_0000

  ghost predicate Int64(n: int) {
    -TWO63 <= n < TWO63
  }

  /** The bits of a signed 64-bit integer, read as an unsigned one. */
  function Bits64(n: int): nat
    requires -TWO63 <= n < TWO63
  {
    if n < 0 then n + TWO64 else n
  }

  function Signed64(u: nat): int {
    if u >= TWO63 then u - TWO64 else u
  }

  /** 64-bit signed arithmetic wraps around. */
  function Wrap(x: int): int {
    (x + TWO63) % TWO64 - TWO63
  }

  lemma WrapFits(x: int)
    requires Int64(x)
    ensures Wrap(x) == x
  {}

  lemma Widths()
    ensures Pow256(1) == 256 && Pow256(2) == 0x1_0000 && Pow256(4) == 0x1_0000_0000 && Pow256(8) == TWO64
  {
    assert Pow256(1) == 256 * Pow256(0) && Pow256(2) == 256 * Pow256(1) && Pow256(3) == 256 * Pow256(2);
    assert Pow256(4) == 256 * Pow256(3) && Pow256(5) == 256 * Pow256(4) && Pow256(6) == 256 * Pow256(5);
    assert Pow256(7) == 256 * Pow256(6) && Pow256(8) == 256 * Pow256(7);
  }
}
