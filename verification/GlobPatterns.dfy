/** What the bytes of a pattern mean, one special byte after another. */
module GlobPatterns {
  import opened Store
  import opened Glob

  /** The whole of `s` matches `pattern`. */
  ghost predicate Matches(pattern: Bytes, s: Bytes) {
    Match(Tokens(pattern), s)
  }

  lemma OneTokenMore(pattern: Bytes)
    requires pattern != []
    ensures Tokens(pattern)[0] == First(pattern).0 && Tokens(pattern)[1..] == Tokens(First(pattern).1)
  {}

  /** No pattern matches nothing but the empty text. */
  lemma EmptyPattern(s: Bytes)
    ensures Matches([], s) <==> s == []
  {}

  /** A star (42) stands for any bytes. */
  lemma StarMeans(rest: Bytes, s: Bytes)
    ensures Matches([42] + rest, s) <==> exists i :: 0 <= i <= |s| && Matches(rest, s[i..])
  {
    var p := [42] + rest;
    OneTokenMore(p);
    assert p[1..] == rest;
    StarSplits(Tokens(p), s);
  }

  lemma {:induction false} StarSplits(ts: seq<Token>, s: Bytes)
    requires ts != [] && ts[0].Star?
    ensures Match(ts, s) <==> exists i :: 0 <= i <= |s| && Match(ts[1..], s[i..])
  {
    assert s[0..] == s;
    if s != [] {
      StarSplits(ts, s[1..]);
      if i :| 0 <= i <= |s[1..]| && Match(ts[1..], s[1..][i..]) { assert s[1..][i..] == s[i + 1..]; }
      if i :| 0 < i <= |s| && Match(ts[1..], s[i..]) { assert s[1..][i - 1..] == s[i..]; }
    }
  }

  /** A question mark (63) stands for one byte. */
  lemma AnyMeans(rest: Bytes, s: Bytes)
    ensures Matches([63] + rest, s) <==> s != [] && Matches(rest, s[1..])
  {
    var p := [63] + rest;
    OneTokenMore(p);
    assert p[1..] == rest;
  }

  /** A backslash (92) takes the next byte as it is; at the end of a pattern it matches nothing. */
  lemma EscapeMeans(c: Byte, rest: Bytes, s: Bytes)
    ensures Matches([92, c] + rest, s) <==> s != [] && s[0] == c && Matches(rest, s[1..])
    ensures !Matches([92], s)
  {
    var p := [92, c] + rest;
    OneTokenMore(p);
    assert p[2..] == rest;
    OneTokenMore([92]);
  }

  /** Any byte other than a star, a question mark, an opening bracket (91) and a backslash stands for itself. */
  lemma LiteralMeans(c: Byte, rest: Bytes, s: Bytes)
    requires c != 42 && c != 63 && c != 91 && c != 92
    ensures Matches([c] + rest, s) <==> s != [] && s[0] == c && Matches(rest, s[1..])
  {
    var p := [c] + rest;
    OneTokenMore(p);
    assert p[1..] == rest;
  }

  // ---------------------------------------------------------------- classes

  /** Bytes without a dash (45) or a closing bracket (93), up to the bracket. */
  lemma {:induction false} PlainItems(body: Bytes, rest: Bytes, c: Byte)
    requires 45 !in body && 93 !in body
    ensures var r := Items(body + [93] + rest); r.Some? && r.value.1 == rest && (Covers(r.value.0, c) <==> c in body)
  {
    var b := body + [93] + rest;
    if body == [] {
      assert b[1..] == rest;
    } else {
      assert b[0] == body[0] && b[1..] == body[1..] + [93] + rest;
      assert |body| > 1 ==> b[1] == body[1];
      PlainItems(body[1..], rest, c);
      var items := Items(b[1..]).value.0;
      assert Items(b).value.0 == [One(b[0])] + items;
      CoversCons(One(b[0]), items, c);
    }
  }

  /** A class of bytes in brackets stands for one of them; after a caret (94) for one that is not among them. */
  lemma ClassMeans(body: Bytes, rest: Bytes, s: Bytes)
    requires 45 !in body && 93 !in body
    ensures (body == [] || body[0] != 94) ==>
              (Matches([91] + body + [93] + rest, s) <==> s != [] && s[0] in body && Matches(rest, s[1..]))
    ensures Matches([91, 94] + body + [93] + rest, s) <==> s != [] && s[0] !in body && Matches(rest, s[1..])
  {
    var p, q := [91] + body + [93] + rest, [91, 94] + body + [93] + rest;
    OneTokenMore(p);
    OneTokenMore(q);
    assert p[1..] == body + [93] + rest && q[2..] == body + [93] + rest;
    assert body != [] ==> p[1] == body[0];
    var c := if s == [] then 0 else s[0];
    PlainItems(body, rest, c);
  }

  /** A range in brackets stands for one byte from its first to its last. */
  lemma RangeMeans(lo: Byte, hi: Byte, rest: Bytes, s: Bytes)
    requires lo != 93 && lo != 94 && hi != 93
    ensures Matches([91, lo, 45, hi, 93] + rest, s) <==> s != [] && lo <= s[0] <= hi && Matches(rest, s[1..])
    ensures Matches([91, 94, lo, 45, hi, 93] + rest, s) <==> s != [] && !(lo <= s[0] <= hi) && Matches(rest, s[1..])
  {
    var p, q := [91, lo, 45, hi, 93] + rest, [91, 94, lo, 45, hi, 93] + rest;
    var b := [lo, 45, hi, 93] + rest;
    OneTokenMore(p);
    OneTokenMore(q);
    assert p[1..] == b && q[2..] == b;
    assert b[3..] == [93] + rest && ([93] + rest)[1..] == rest;
    var c := if s == [] then 0 else s[0];
    assert Items([93] + rest) == Some(([], rest));
    assert b[0] == lo && b[1] == 45 && b[2] == hi;
    assert Items(b) == Some(([Range(lo, hi)] + [], rest));
    CoversCons(Range(lo, hi), [], c);
  }

  /** An opening bracket that is never closed stands for itself. */
  lemma UnclosedMeans(rest: Bytes, s: Bytes)
    requires 93 !in rest
    ensures Matches([91] + rest, s) <==> s != [] && s[0] == 91 && Matches(rest, s[1..])
  {
    var p := [91] + rest;
    OneTokenMore(p);
    assert p[1..] == rest;
    NeverClosed(rest);
    if rest != [] { NeverClosed(rest[1..]); assert p[2..] == rest[1..]; }
  }

  lemma {:induction false} NeverClosed(b: Bytes)
    requires 93 !in b
    ensures Items(b).None?
    decreases |b|
  {
    if b != [] {
      NeverClosed(b[1..]);
      if |b| > 2 { NeverClosed(b[3..]); }
    }
  }
}
