/** The lexicographic order of byte strings, and the order in which versions are stored. */
module ByteOrder {
  import opened Store

  predicate Lt(a: Bytes, b: Bytes) {
    b != [] && (a == [] || a[0] < b[0] || (a[0] == b[0] && Lt(a[1..], b[1..])))
  }

  predicate Le(a: Bytes, b: Bytes) {
    a == b || Lt(a, b)
  }

  lemma {:induction false} LtIrreflexive(a: Bytes)
    ensures !Lt(a, a)
  {
    if a != [] { LtIrreflexive(a[1..]); }
  }

  lemma {:induction false} LtTrans(a: Bytes, b: Bytes, c: Bytes)
    requires Lt(a, b) && Lt(b, c)
    ensures Lt(a, c)
  {
    if a != [] && a[0] == b[0] && b[0] == c[0] { LtTrans(a[1..], b[1..], c[1..]); }
  }

  lemma {:induction false} LtTotal(a: Bytes, b: Bytes)
    ensures Lt(a, b) || a == b || Lt(b, a)
  {
    if a != [] && b != [] && a[0] == b[0] {
      LtTotal(a[1..], b[1..]);
      if a[1..] == b[1..] { assert a == [a[0]] + a[1..] == b; }
    }
  }

  lemma LtAsym(a: Bytes, b: Bytes)
    requires Lt(a, b)
    ensures !Lt(b, a)
  {
    if Lt(b, a) { LtTrans(a, b, a); LtIrreflexive(a); }
  }

  lemma OneByte(x: Byte, y: Byte)
    ensures Lt([x], [y]) <==> x < y
  {
    var a, b: Bytes := [x], [y];
    assert a[1..] == [] && b[1..] == [];
  }

  lemma NotLtTrans(a: Bytes, b: Bytes, c: Bytes)
    requires !Lt(a, b) && !Lt(b, c)
    ensures !Lt(a, c)
  {
    if Lt(a, c) {
      LtTotal(a, b);
      if Lt(b, a) { LtTrans(b, a, c); }
    }
  }

  lemma LtNotLtTrans(a: Bytes, b: Bytes, c: Bytes)
    requires Lt(a, b) && !Lt(c, b)
    ensures Lt(a, c)
  {
    LtTotal(b, c);
    if b != c { LtTrans(a, b, c); }
  }

  /** A string is not smaller than its prefixes. */
  lemma {:induction false} PrefixNotGreater(p: Bytes, x: Bytes)
    requires p <= x
    ensures !Lt(x, p)
  {
    if p != [] {
      assert p[1..] <= x[1..];
      PrefixNotGreater(p[1..], x[1..]);
    }
  }

  /** What lies between a prefix and a string that has it has it too. */
  lemma {:induction false} PrefixBetween(p: Bytes, x: Bytes, k: Bytes)
    requires p <= k && !Lt(x, p) && !Lt(k, x)
    ensures p <= x
  {
    if p != [] {
      assert p[1..] <= k[1..];
      assert x[0] == p[0];
      PrefixBetween(p[1..], x[1..], k[1..]);
      assert x == [x[0]] + x[1..] && p == [p[0]] + p[1..];
    }
  }

  lemma LeTrans(a: Bytes, b: Bytes, c: Bytes)
    requires Le(a, b) && Le(b, c)
    ensures Le(a, c)
  {
    if a != b && b != c { LtTrans(a, b, c); }
  }

  const NUL: Byte := 0

  /** The place of the first NUL, or the length. */
  function IndexNul(b: Bytes): (i: nat)
    ensures i <= |b| && (i < |b| ==> b[i] == NUL)
  {
    if b == [] || b[0] == NUL then 0 else 1 + IndexNul(b[1..])
  }

  /** A key up to its second NUL. */
  function ExtractPrefix(k: Key): (p: Key)
    ensures p <= k
  {
    var i := IndexNul(k);
    if i == |k| then k else k[..i + 1 + IndexNul(k[i + 1..])]
  }

  /** Neither name is the other one followed by a zero byte and more. */
  ghost predicate Unmixed(a: Bytes, b: Bytes) {
    !(a + [0] <= b) && !(b + [0] <= a)
  }

  /** What follows two such names and a zero byte is the same only if the names are. */
  lemma NameEnds(a: Bytes, x: Bytes, b: Bytes, y: Bytes)
    requires Unmixed(a, b) && a + [0] + x == b + [0] + y
    ensures a == b && x == y
  {
    var l := a + [0] + x;
    assert a + [0] == l[..|a| + 1] && b + [0] == l[..|b| + 1];
    assert a == l[..|a|] && b == l[..|b|] && x == l[|a| + 1..] && y == l[|b| + 1..];
  }

  /** Keys ascending, and the newest version of a key first. */
  predicate Before(a: Cell, b: Cell) {
    Lt(a.key, b.key) || (a.key == b.key && a.version > b.version)
  }

  lemma BeforeTrans(a: Cell, b: Cell, c: Cell)
    requires Before(a, b) && Before(b, c)
    ensures Before(a, c)
  {
    if Lt(a.key, b.key) && Lt(b.key, c.key) { LtTrans(a.key, b.key, c.key); }
  }

  lemma BeforeTotal(a: Cell, b: Cell)
    ensures Before(a, b) || a == b || Before(b, a)
  {
    LtTotal(a.key, b.key);
  }

  lemma BeforeIrreflexive(a: Cell)
    ensures !Before(a, a)
  {
    LtIrreflexive(a.key);
  }

  /** Not after: the order a merge heap compares with. */
  predicate NotAfter(a: Cell, b: Cell) {
    a == b || Before(a, b)
  }

  lemma NotAfterTrans(a: Cell, b: Cell, c: Cell)
    requires NotAfter(a, b) && NotAfter(b, c)
    ensures NotAfter(a, c)
  {
    if a != b && b != c { BeforeTrans(a, b, c); }
  }

  lemma NotAfterTotal(a: Cell, b: Cell)
    ensures NotAfter(a, b) || NotAfter(b, a)
  {
    BeforeTotal(a, b);
  }
}
