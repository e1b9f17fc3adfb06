/** The order-preserving encoding of scores. A score is given by its binary64 bit pattern; what the
    patterns mean follows section 3.4 of IEEE 754-2008. */
module Score {
  import opened Store
  import opened ByteOrder
  import opened Encoding

  const SIGN := 0x8000_0000_0000_0000
  const FRACTION := 0x10_0000_0000_0000
  /** The pattern of positive infinity; larger magnitudes are not numbers. */
  const INFINITY := 0x7FF0_0000_0000_0000

  function Pow2(n: nat): (p: nat)
    ensures p > 0
  {
    if n == 0 then 1 else 2 * Pow2(n - 1)
  }

  function Magnitude(bits: nat): nat {
    bits % SIGN
  }

  ghost predicate IsScore(bits: nat) {
    bits < 2 * SIGN && Magnitude(bits) <= INFINITY
  }

  /** The absolute value as a multiple of the smallest positive number: subnormal when the exponent
      field is zero, and with an implicit leading one otherwise. Infinity comes out larger than every
      finite number. */
  function Scaled(m: nat): nat {
    var e, f := m / FRACTION, m % FRACTION;
    if e == 0 then f else (FRACTION + f) * Pow2(e - 1)
  }

  /** The number a pattern stands for, as such a multiple. Both zeros stand for 0. */
  function Num(bits: nat): int {
    var n: int := Scaled(Magnitude(bits));
    if bits >= SIGN then -n else n
  }

  // ---------------------------------------------------------------- patterns in numeric order

  lemma ScaledStep(m: nat)
    ensures Scaled(m) < Scaled(m + 1)
  {
    var e, f := m / FRACTION, m % FRACTION;
    if f + 1 < FRACTION {
      assert (m + 1) / FRACTION == e && (m + 1) % FRACTION == f + 1;
      if e > 0 { MulLess(FRACTION + f, FRACTION + f + 1, Pow2(e - 1)); }
    } else {
      assert (m + 1) / FRACTION == e + 1 && (m + 1) % FRACTION == 0;
      if e > 0 {
        MulLess(FRACTION + f, 2 * FRACTION, Pow2(e - 1));
        assert Pow2(e) == 2 * Pow2(e - 1);
        MulSwap(FRACTION, Pow2(e - 1));
      }
    }
  }

  lemma MulLess(a: nat, b: nat, c: nat)
    requires a < b && c > 0
    ensures a * c < b * c
  {}

  lemma MulSwap(a: nat, c: nat)
    ensures a * (2 * c) == (2 * a) * c
  {}

  lemma {:induction false} ScaledGrows(m: nat, n: nat)
    requires m < n
    ensures Scaled(m) < Scaled(n)
    decreases n - m
  {
    ScaledStep(n - 1);
    if m < n - 1 { ScaledGrows(m, n - 1); }
  }

  // ---------------------------------------------------------------- the encoding

  /** The 64-bit key of a score: negative zero counts as zero, positive patterns get the sign bit, and
      negative ones are inverted. */
  function SortKey(bits: nat): (u: nat)
    requires bits < 2 * SIGN
    ensures u < 2 * SIGN
  {
    var b := if Num(bits) == 0 then 0 else bits;
    if Num(b) >= 0 && b < SIGN then b + SIGN else 2 * SIGN - 1 - b
  }

  function EncodeScore(bits: nat): Bytes
    requires bits < 2 * SIGN
  {
    BigEndian(SortKey(bits), 8)
  }

  function DecodeScore(b: Bytes): nat
    requires |b| == 8
  {
    var u := FromBigEndian(b);
    if u >= SIGN then u - SIGN else if u < 2 * SIGN then 2 * SIGN - 1 - u else 0
  }

  lemma ZeroPatterns(bits: nat)
    requires bits < 2 * SIGN
    ensures Num(bits) == 0 <==> bits == 0 || bits == SIGN
  {
    if Magnitude(bits) > 0 { ScaledGrows(0, Magnitude(bits)); }
  }

  lemma KeyRange(bits: nat)
    requires bits < 2 * SIGN
    ensures SortKey(bits) == if bits < SIGN then bits + SIGN else if bits == SIGN then SIGN else 2 * SIGN - 1 - bits
  {
    ZeroPatterns(bits);
  }

  lemma NumSign(bits: nat)
    requires bits < 2 * SIGN
    ensures bits < SIGN ==> Num(bits) == Scaled(bits)
    ensures bits >= SIGN ==> Num(bits) == 0 - Scaled(bits - SIGN)
  {
    assert Magnitude(bits) == if bits < SIGN then bits else bits - SIGN;
  }

  lemma ScaledOrder(m: nat, n: nat)
    ensures Scaled(m) < Scaled(n) <==> m < n
    ensures Scaled(m) >= 0 && (Scaled(m) == 0 <==> m == 0)
  {
    if m < n { ScaledGrows(m, n); }
    if n < m { ScaledGrows(n, m); }
    if m > 0 { ScaledGrows(0, m); }
  }

  lemma KeyOrder(a: nat, b: nat)
    requires a < 2 * SIGN && b < 2 * SIGN
    ensures SortKey(a) < SortKey(b) <==> Num(a) < Num(b)
  {
    KeyRange(a);
    KeyRange(b);
    NumSign(a);
    NumSign(b);
    var m, n := if a < SIGN then a else a - SIGN, if b < SIGN then b else b - SIGN;
    ScaledOrder(m, n);
    ScaledOrder(n, m);
    SignedOrder(a, b, SortKey(a), SortKey(b), Scaled(m), Scaled(n));
  }

  lemma SignedOrder(a: nat, b: nat, u: nat, v: nat, x: int, y: int)
    requires x >= 0 && y >= 0 && a < 2 * SIGN && b < 2 * SIGN
    requires u == if a < SIGN then a + SIGN else if a == SIGN then SIGN else 2 * SIGN - 1 - a
    requires v == if b < SIGN then b + SIGN else if b == SIGN then SIGN else 2 * SIGN - 1 - b
    requires var m, n := if a < SIGN then a else a - SIGN, if b < SIGN then b else b - SIGN;
             (x < y <==> m < n) && (y < x <==> n < m) && (x == 0 <==> m == 0) && (y == 0 <==> n == 0)
    ensures u < v <==> (if a < SIGN then x else -x) < (if b < SIGN then y else -y)
  {}

  // ---------------------------------------------------------------- byte order

  lemma {:induction false} LtConcat(a: Bytes, x: Bytes, b: Bytes, y: Bytes)
    requires |a| == |b|
    ensures Lt(a + x, b + y) <==> Lt(a, b) || (a == b && Lt(x, y))
  {
    if a == [] {
      assert a + x == x && b + y == y;
    } else {
      assert (a + x)[1..] == a[1..] + x && (b + y)[1..] == b[1..] + y;
      LtConcat(a[1..], x, b[1..], y);
      if a[0] == b[0] && a[1..] == b[1..] { assert a == [a[0]] + a[1..] == b; }
    }
  }

  lemma {:induction false} BigEndianOrder(m: nat, n: nat, width: nat)
    requires m < Pow256(width) && n < Pow256(width)
    ensures Lt(BigEndian(m, width), BigEndian(n, width)) <==> m < n
    ensures BigEndian(m, width) == BigEndian(n, width) <==> m == n
  {
    BigEndianRound(m, width);
    BigEndianRound(n, width);
    if width > 0 {
      BigEndianOrder(m / 256, n / 256, width - 1);
      LtConcat(BigEndian(m / 256, width - 1), [m % 256], BigEndian(n / 256, width - 1), [n % 256]);
      OneByte(m % 256, n % 256);
    }
  }

  /** Scores sort as numbers: byte order of the encodings is numeric order, and two scores have the
      same encoding exactly when they are the same number. */
  lemma ScoreOrder(a: nat, b: nat)
    requires IsScore(a) && IsScore(b)
    ensures Lt(EncodeScore(a), EncodeScore(b)) <==> Num(a) < Num(b)
    ensures EncodeScore(a) == EncodeScore(b) <==> Num(a) == Num(b)
  {
    Widths();
    BigEndianOrder(SortKey(a), SortKey(b), 8);
    KeyOrder(a, b);
    KeyOrder(b, a);
  }

  /** Decoding gives the score back, negative zero as zero. */
  lemma ScoreRound(bits: nat)
    requires IsScore(bits)
    ensures DecodeScore(EncodeScore(bits)) == if bits == SIGN then 0 else bits
    ensures Num(DecodeScore(EncodeScore(bits))) == Num(bits)
  {
    Widths();
    KeyRange(bits);
    BigEndianRound(SortKey(bits), 8);
    ZeroPatterns(bits);
  }
}
