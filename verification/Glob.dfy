/** The pattern matcher of KEYS and SCAN: a loop that goes back only to the latest star, against the
    meaning of the pattern as a list of tokens. */
module Glob {
  import opened Store

  const STAR: Byte := 42
  const ANY: Byte := 63
  const OPEN: Byte := 91
  const ESCAPE: Byte := 92
  const CLOSE: Byte := 93
  const NOT: Byte := 94
  const DASH: Byte := 45

  // ---------------------------------------------------------------- the meaning of a pattern

  datatype Item = One(c: Byte) | Range(lo: Byte, hi: Byte)

  /** `Never` is an escape at the end of the pattern: it matches nothing. */
  datatype Token = Star | Any | Lit(c: Byte) | Never | Class(negate: bool, items: seq<Item>)

  /** The items of a class up to its closing bracket, and what follows; none if it is not closed. */
  function Items(b: Bytes): (r: Option<(seq<Item>, Bytes)>)
    ensures r.Some? ==> |r.value.1| < |b|
  {
    if b == [] then None
    else if b[0] == CLOSE then Some(([], b[1..]))
    else if |b| > 2 && b[1] == DASH && b[2] != CLOSE then
      var rest := Items(b[3..]);
      if rest.None? then None else Some(([Range(b[0], b[2])] + rest.value.0, rest.value.1))
    else
      var rest := Items(b[1..]);
      if rest.None? then None else Some(([One(b[0])] + rest.value.0, rest.value.1))
  }

  /** The first token, and what follows. An opening bracket that is never closed is a literal. */
  function First(b: Bytes): (r: (Token, Bytes))
    requires b != []
    ensures |r.1| < |b|
  {
    if b[0] == STAR then (Star, b[1..])
    else if b[0] == ANY then (Any, b[1..])
    else if b[0] == OPEN then
      var negate := |b| > 1 && b[1] == NOT;
      var items := Items(b[if negate then 2 else 1..]);
      if items.None? then (Lit(OPEN), b[1..]) else (Class(negate, items.value.0), items.value.1)
    else if b[0] == ESCAPE then
      if |b| > 1 then (Lit(b[1]), b[2..]) else (Never, [])
    else (Lit(b[0]), b[1..])
  }

  function Tokens(b: Bytes): seq<Token>
    decreases |b|
  {
    if b == [] then [] else [First(b).0] + Tokens(First(b).1)
  }

  predicate Within(i: Item, c: Byte) {
    match i
    case One(x) => c == x
    case Range(lo, hi) => lo <= c <= hi
  }

  ghost predicate Covers(items: seq<Item>, c: Byte) {
    exists k :: 0 <= k < |items| && Within(items[k], c)
  }

  ghost predicate Accepts(t: Token, c: Byte) {
    match t
    case Star => false
    case Any => true
    case Lit(x) => c == x
    case Never => false
    case Class(negate, items) => Covers(items, c) != negate
  }

  /** A star stands for any bytes, every other token for one byte it accepts. */
  ghost predicate Match(ts: seq<Token>, s: Bytes)
    decreases |ts| + |s|
  {
    if ts == [] then s == []
    else if ts[0].Star? then Match(ts[1..], s) || (s != [] && Match(ts, s[1..]))
    else s != [] && Accepts(ts[0], s[0]) && Match(ts[1..], s[1..])
  }

  // ---------------------------------------------------------------- why the latest star is enough

  ghost predicate NoStar(ts: seq<Token>) {
    forall i :: 0 <= i < |ts| ==> !ts[i].Star?
  }

  lemma {:induction false} AfterSegment(seg: seq<Token>, rest: seq<Token>, s: Bytes)
    requires NoStar(seg) && Match(seg + rest, s)
    ensures |seg| <= |s| && Match(rest, s[|seg|..])
  {
    if seg == [] {
      assert seg + rest == rest && s[0..] == s;
    } else {
      assert (seg + rest)[1..] == seg[1..] + rest;
      AfterSegment(seg[1..], rest, s[1..]);
      assert s[1..][|seg| - 1..] == s[|seg|..];
    }
  }

  /** What starts with a star also matches from further left. */
  lemma {:induction false} StarFromLeft(ts: seq<Token>, s: Bytes, i: nat, j: nat)
    requires ts != [] && ts[0].Star? && i <= j <= |s| && Match(ts, s[j..])
    ensures Match(ts, s[i..])
    decreases j - i
  {
    if i < j {
      StarFromLeft(ts, s, i + 1, j);
      assert s[i..][1..] == s[i + 1..];
    }
  }

  /** A star further left can only find the next star further right. */
  lemma {:induction false} LatestStarEnough(seg: seq<Token>, rest: seq<Token>, s: Bytes, i: nat)
    requires NoStar(seg) && rest != [] && rest[0].Star? && i <= |s| && Match([Star] + seg + rest, s[i..])
    ensures i + |seg| <= |s| && Match(rest, s[i + |seg|..])
    decreases |s| - i
  {
    var ts := [Star] + seg + rest;
    assert ts[1..] == seg + rest;
    if Match(seg + rest, s[i..]) {
      AfterSegment(seg, rest, s[i..]);
      assert s[i..][|seg|..] == s[i + |seg|..];
    } else {
      assert s[i..][1..] == s[i + 1..];
      LatestStarEnough(seg, rest, s, i + 1);
      StarFromLeft(rest, s, i + |seg|, i + 1 + |seg|);
    }
  }

  // ---------------------------------------------------------------- character classes

  lemma CoversCons(i: Item, items: seq<Item>, c: Byte)
    ensures Covers([i] + items, c) <==> Within(i, c) || Covers(items, c)
  {
    var all := [i] + items;
    if Within(i, c) { assert Within(all[0], c); }
    if Covers(items, c) {
      var k :| 0 <= k < |items| && Within(items[k], c);
      assert all[k + 1] == items[k];
    }
  }

  /** `matched` sums up the items from `from` to `j`. */
  ghost predicate Scanned(pattern: Bytes, from: nat, j: nat, c: Byte, matched: bool)
    requires from <= j <= |pattern|
  {
    var whole, rest := Items(pattern[from..]), Items(pattern[j..]);
    && (whole.None? <==> rest.None?)
    && (rest.Some? ==>
          whole.value.1 == rest.value.1 && (Covers(whole.value.0, c) <==> matched || Covers(rest.value.0, c)))
  }

  lemma ScanItem(pattern: Bytes, from: nat, j: nat, c: Byte, matched: bool, item: Item, next: nat)
    requires from <= j < next <= |pattern| && pattern[j] != CLOSE && Scanned(pattern, from, j, c, matched)
    requires if j + 2 < |pattern| && pattern[j + 1] == DASH && pattern[j + 2] != CLOSE
             then item == Range(pattern[j], pattern[j + 2]) && next == j + 3
             else item == One(pattern[j]) && next == j + 1
    ensures Scanned(pattern, from, next, c, matched || Within(item, c))
  {
    var b := pattern[j..];
    assert b[next - j..] == pattern[next..];
    var rest := Items(pattern[next..]);
    assert Items(b) == if rest.None? then None else Some(([item] + rest.value.0, rest.value.1));
    if rest.Some? { CoversCons(item, rest.value.0, c); }
  }

  method MatchCharClass(pattern: Bytes, start: nat, ch: Byte) returns (next: nat, ok: bool)
    requires start < |pattern| && pattern[start] == OPEN
    ensures start < next <= |pattern| && First(pattern[start..]).1 == pattern[next..]
    ensures ok <==> Accepts(First(pattern[start..]).0, ch)
  {
    var j := start + 1;
    var negate := false;
    if j < |pattern| && pattern[j] == NOT {
      negate := true;
      j := j + 1;
    }
    ghost var from := j;
    var matched: bool;
    j, matched := ScanClass(pattern, j, ch);
    ClassEnd(pattern, start, from, j, negate, ch, matched);
    if j >= |pattern| {
      return start + 1, ch == OPEN;
    }
    return j + 1, matched != negate;
  }

  /** The loop over the items of a class. */
  method ScanClass(pattern: Bytes, from: nat, ch: Byte) returns (j: nat, matched: bool)
    requires from <= |pattern|
    ensures from <= j <= |pattern| && Scanned(pattern, from, j, ch, matched) && (j < |pattern| ==> pattern[j] == CLOSE)
  {
    j, matched := from, false;
    while j < |pattern| && pattern[j] != CLOSE
      invariant from <= j <= |pattern| && Scanned(pattern, from, j, ch, matched)
    {
      if j + 2 < |pattern| && pattern[j + 1] == DASH && pattern[j + 2] != CLOSE {
        ScanItem(pattern, from, j, ch, matched, Range(pattern[j], pattern[j + 2]), j + 3);
        if ch >= pattern[j] && ch <= pattern[j + 2] { matched := true; }
        j := j + 3;
        continue;
      }
      ScanItem(pattern, from, j, ch, matched, One(pattern[j]), j + 1);
      if pattern[j] == ch { matched := true; }
      j := j + 1;
    }
  }

  lemma ClassEnd(pattern: Bytes, start: nat, from: nat, j: nat, negate: bool, ch: Byte, matched: bool)
    requires start < from <= j <= |pattern| && pattern[start] == OPEN && Scanned(pattern, from, j, ch, matched)
    requires negate == (start + 1 < |pattern| && pattern[start + 1] == NOT) && from == start + if negate then 2 else 1
    requires j < |pattern| ==> pattern[j] == CLOSE
    ensures j == |pattern| ==> First(pattern[start..]) == (Lit(OPEN), pattern[start + 1..])
    ensures j < |pattern| ==> First(pattern[start..]).1 == pattern[j + 1..]
    ensures j < |pattern| ==> (Accepts(First(pattern[start..]).0, ch) <==> matched != negate)
  {
    var b := pattern[start..];
    assert b[from - start..] == pattern[from..] && b[1..] == pattern[start + 1..];
    if j < |pattern| {
      assert pattern[j..][1..] == pattern[j + 1..];
      assert Items(pattern[j..]) == Some(([], pattern[j + 1..]));
    }
  }

  // ---------------------------------------------------------------- the loop

  /** One byte against one token other than a star. */
  method MatchOne(pattern: Bytes, p: nat, ch: Byte) returns (next: nat, ok: bool)
    requires p < |pattern| && pattern[p] != STAR
    ensures !First(pattern[p..]).0.Star? && (ok <==> Accepts(First(pattern[p..]).0, ch))
    ensures ok ==> p < next <= |pattern| && First(pattern[p..]).1 == pattern[next..]
  {
    assert pattern[p..][1..] == pattern[p + 1..];
    if pattern[p] == ANY {
      return p + 1, true;
    } else if pattern[p] == OPEN {
      next, ok := MatchCharClass(pattern, p, ch);
    } else if pattern[p] == ESCAPE {
      if p + 1 < |pattern| && pattern[p + 1] == ch {
        assert pattern[p..][2..] == pattern[p + 2..];
        return p + 2, true;
      }
      return p, false;
    } else {
      return p + 1, pattern[p] == ch;
    }
  }

  /** What the answer `all` still depends on: the tokens `ts` from byte `si` on, and the latest star,
      which was met at byte `starS` and after which `seg` has been matched. */
  ghost predicate Pursues(all: bool, ts: seq<Token>, s: Bytes, si: nat, starred: bool, starS: nat, seg: seq<Token>) {
    && si <= |s| && starS <= si
    && (!starred ==> (all <==> Match(ts, s[si..])))
    && (starred ==> NoStar(seg) && si == starS + |seg| && (all <==> Match([Star] + seg + ts, s[starS..])))
    && (starred ==> (Match(seg + ts, s[starS..]) <==> Match(ts, s[si..])))
  }

  lemma TokenStep(t: Token, ts: seq<Token>, s: Bytes, si: nat)
    requires !t.Star? && si < |s|
    ensures Match([t] + ts, s[si..]) <==> Accepts(t, s[si]) && Match(ts, s[si + 1..])
  {
    assert s[si..][1..] == s[si + 1..] && ([t] + ts)[1..] == ts;
  }

  /** Taking a byte with a token other than a star leaves no choice. */
  lemma TakeOne(all: bool, t: Token, ts: seq<Token>, s: Bytes, si: nat, starred: bool, starS: nat, seg: seq<Token>)
    requires Pursues(all, [t] + ts, s, si, starred, starS, seg) && si < |s| && !t.Star? && Accepts(t, s[si])
    ensures Pursues(all, ts, s, si + 1, starred, starS, seg + [t])
  {
    TokenStep(t, ts, s, si);
    assert seg + [t] + ts == seg + ([t] + ts);
    assert [Star] + (seg + [t]) + ts == [Star] + seg + ([t] + ts);
  }

  ghost predicate Stuck(ts: seq<Token>, s: Bytes, si: nat)
    requires si < |s|
  {
    ts != [] ==> !ts[0].Star? && !Accepts(ts[0], s[si])
  }

  lemma StarStep(ts: seq<Token>, s: Bytes, i: nat)
    requires i <= |s|
    ensures Match([Star] + ts, s[i..]) <==> Match(ts, s[i..]) || (i < |s| && Match([Star] + ts, s[i + 1..]))
  {
    assert ([Star] + ts)[1..] == ts;
    if i < |s| { assert s[i..][1..] == s[i + 1..]; }
  }

  /** Back to the latest star, which takes one more byte. */
  lemma Back(all: bool, ts: seq<Token>, s: Bytes, si: nat, starS: nat, seg: seq<Token>)
    requires Pursues(all, ts, s, si, true, starS, seg) && si < |s| && Stuck(ts, s, si)
    ensures Pursues(all, seg + ts, s, starS + 1, true, starS + 1, [])
  {
    StarStep(seg + ts, s, starS);
    assert [Star] + seg + ts == [Star] + (seg + ts);
    FreshStar(all, seg + ts, s, starS + 1);
  }

  /** A new star takes over from the one before. */
  lemma NewStar(all: bool, ts: seq<Token>, s: Bytes, si: nat, starred: bool, starS: nat, seg: seq<Token>)
    requires Pursues(all, [Star] + ts, s, si, starred, starS, seg) && si < |s|
    ensures Pursues(all, ts, s, si, true, si, [])
  {
    if starred { OldStarLoses(ts, s, si, starS, seg); }
    FreshStar(all, ts, s, si);
  }

  lemma FreshStar(all: bool, ts: seq<Token>, s: Bytes, si: nat)
    requires si <= |s| && (all <==> Match([Star] + ts, s[si..]))
    ensures Pursues(all, ts, s, si, true, si, [])
  {
    EmptySegment(ts);
  }

  lemma EmptySegment(ts: seq<Token>)
    ensures [Star] + [] + ts == [Star] + ts && [] + ts == ts
  {}

  lemma OldStarLoses(ts: seq<Token>, s: Bytes, si: nat, starS: nat, seg: seq<Token>)
    requires NoStar(seg) && si == starS + |seg| && si < |s|
    requires Match(seg + ([Star] + ts), s[starS..]) <==> Match([Star] + ts, s[si..])
    ensures Match([Star] + seg + ([Star] + ts), s[starS..]) <==> Match([Star] + ts, s[si..])
  {
    var rest := [Star] + ts;
    StarStep(seg + rest, s, starS);
    assert [Star] + seg + rest == [Star] + (seg + rest);
    if Match([Star] + seg + rest, s[starS + 1..]) {
      LatestStarEnough(seg, rest, s, starS + 1);
      StarFromLeft(rest, s, si, si + 1);
    }
  }

  /** At the end of the string only what is left of the pattern matters. */
  lemma AtEnd(all: bool, ts: seq<Token>, s: Bytes, starred: bool, starS: nat, seg: seq<Token>)
    requires Pursues(all, ts, s, |s|, starred, starS, seg)
    ensures all <==> Match(ts, [])
  {
    assert s[|s|..] == [];
    if starred {
      StarStep(seg + ts, s, starS);
      assert [Star] + seg + ts == [Star] + (seg + ts);
      if starS < |s| { TooShort(seg, ts, s, starS + 1); }
    }
  }

  /** A star that takes more leaves too little for what follows it. */
  lemma {:induction false} TooShort(seg: seq<Token>, rest: seq<Token>, s: Bytes, i: nat)
    requires NoStar(seg) && i <= |s| < i + |seg|
    ensures !Match([Star] + seg + rest, s[i..])
    decreases |s| - i
  {
    StarStep(seg + rest, s, i);
    assert [Star] + seg + rest == [Star] + (seg + rest);
    if Match(seg + rest, s[i..]) { AfterSegment(seg, rest, s[i..]); }
    if i < |s| { TooShort(seg, rest, s, i + 1); }
  }

  lemma StarHead(pattern: Bytes, p: nat)
    requires p < |pattern| && pattern[p] == STAR
    ensures Tokens(pattern[p..]) == [Star] + Tokens(pattern[p + 1..])
  {
    assert pattern[p..][1..] == pattern[p + 1..];
  }

  lemma OnlyStars(pattern: Bytes, p: nat)
    requires p <= |pattern|
    ensures p == |pattern| ==> Match(Tokens(pattern[p..]), [])
    ensures p < |pattern| && pattern[p] == STAR ==>
              (Match(Tokens(pattern[p..]), []) <==> Match(Tokens(pattern[p + 1..]), []))
    ensures p < |pattern| && pattern[p] != STAR ==> !Match(Tokens(pattern[p..]), [])
  {
    if p < |pattern| && pattern[p] == STAR {
      StarHead(pattern, p);
      assert Tokens(pattern[p..])[1..] == Tokens(pattern[p + 1..]);
    }
  }

  /** The loop's variables: where it is in the pattern and in the string, and where the latest star
      was met. */
  ghost predicate At(pattern: Bytes, s: Bytes, p: int, si: int, starP: int, starS: int, seg: seq<Token>) {
    && 0 <= p <= |pattern| && -1 <= starP < p && 0 <= starS <= si <= |s|
    && forall c: Clause :: Holds(c, pattern, s, p, si, starP, starS, seg)
  }

  datatype Clause = CTokens | CAnswer

  ghost predicate Holds(c: Clause, pattern: Bytes, s: Bytes, p: int, si: int, starP: int, starS: int, seg: seq<Token>)
    requires 0 <= p <= |pattern| && -1 <= starP < p && 0 <= starS <= si <= |s|
  {
    match c
    case CTokens => starP >= 0 ==> Tokens(pattern[starP + 1..]) == seg + Tokens(pattern[p..])
    case CAnswer => Pursues(Match(Tokens(pattern), s), Tokens(pattern[p..]), s, si, starP >= 0, starS, seg)
  }

  lemma AtFrom(pattern: Bytes, s: Bytes, p: int, si: int, starP: int, starS: int, seg: seq<Token>)
    requires 0 <= p <= |pattern| && -1 <= starP < p && 0 <= starS <= si <= |s|
    requires starP >= 0 ==> Tokens(pattern[starP + 1..]) == seg + Tokens(pattern[p..])
    requires Pursues(Match(Tokens(pattern), s), Tokens(pattern[p..]), s, si, starP >= 0, starS, seg)
    ensures At(pattern, s, p, si, starP, starS, seg)
  {
    forall c: Clause ensures Holds(c, pattern, s, p, si, starP, starS, seg) { match c { case _ => } }
  }

  lemma AtStart(pattern: Bytes, s: Bytes)
    ensures At(pattern, s, 0, 0, -1, 0, [])
  {
    assert pattern[0..] == pattern && s[0..] == s;
    AtFrom(pattern, s, 0, 0, -1, 0, []);
  }

  lemma MeetStar(pattern: Bytes, s: Bytes, p: nat, si: nat, starP: int, starS: nat, seg: seq<Token>)
    requires At(pattern, s, p, si, starP, starS, seg) && si < |s| && p < |pattern| && pattern[p] == STAR
    ensures At(pattern, s, p + 1, si, p, si, [])
  {
    assert Holds(CAnswer, pattern, s, p, si, starP, starS, seg);
    StarHead(pattern, p);
    NewStar(Match(Tokens(pattern), s), Tokens(pattern[p + 1..]), s, si, starP >= 0, starS, seg);
    EmptySegment(Tokens(pattern[p + 1..]));
    AtFrom(pattern, s, p + 1, si, p, si, []);
  }

  lemma TakeByte(pattern: Bytes, s: Bytes, p: nat, si: nat, starP: int, starS: nat, seg: seq<Token>, next: nat,
      t: Token)
    requires At(pattern, s, p, si, starP, starS, seg) && si < |s| && p < next <= |pattern|
    requires First(pattern[p..]) == (t, pattern[next..]) && !t.Star? && Accepts(t, s[si])
    ensures At(pattern, s, next, si + 1, starP, starS, seg + [t])
  {
    assert Holds(CAnswer, pattern, s, p, si, starP, starS, seg) && Holds(CTokens, pattern, s, p, si, starP, starS, seg);
    assert Tokens(pattern[p..]) == [t] + Tokens(pattern[next..]);
    TakeOne(Match(Tokens(pattern), s), t, Tokens(pattern[next..]), s, si, starP >= 0, starS, seg);
    assert seg + [t] + Tokens(pattern[next..]) == seg + ([t] + Tokens(pattern[next..]));
    AtFrom(pattern, s, next, si + 1, starP, starS, seg + [t]);
  }

  lemma GoBack(pattern: Bytes, s: Bytes, p: nat, si: nat, starP: nat, starS: nat, seg: seq<Token>)
    requires At(pattern, s, p, si, starP, starS, seg) && si < |s| && Stuck(Tokens(pattern[p..]), s, si)
    ensures At(pattern, s, starP + 1, starS + 1, starP, starS + 1, [])
  {
    assert Holds(CAnswer, pattern, s, p, si, starP, starS, seg) && Holds(CTokens, pattern, s, p, si, starP, starS, seg);
    Back(Match(Tokens(pattern), s), Tokens(pattern[p..]), s, si, starS, seg);
    EmptySegment(Tokens(pattern[starP + 1..]));
    AtFrom(pattern, s, starP + 1, starS + 1, starP, starS + 1, []);
  }

  lemma GiveUp(pattern: Bytes, s: Bytes, p: nat, si: nat, starS: nat, seg: seq<Token>)
    requires At(pattern, s, p, si, -1, starS, seg) && si < |s| && Stuck(Tokens(pattern[p..]), s, si)
    ensures !Match(Tokens(pattern), s)
  {
    assert Holds(CAnswer, pattern, s, p, si, -1, starS, seg);
  }

  lemma StringDone(pattern: Bytes, s: Bytes, p: nat, starP: int, starS: nat, seg: seq<Token>)
    requires At(pattern, s, p, |s|, starP, starS, seg)
    ensures Match(Tokens(pattern), s) <==> Match(Tokens(pattern[p..]), [])
  {
    assert Holds(CAnswer, pattern, s, p, |s|, starP, starS, seg);
    AtEnd(Match(Tokens(pattern), s), Tokens(pattern[p..]), s, starP >= 0, starS, seg);
  }

  lemma NoToken(pattern: Bytes, s: Bytes, p: nat, si: nat)
    requires p <= |pattern| && si < |s|
    requires p < |pattern| ==> !First(pattern[p..]).0.Star? && !Accepts(First(pattern[p..]).0, s[si])
    ensures Stuck(Tokens(pattern[p..]), s, si)
  {}

  /** True exactly when the tokens of the pattern match the whole string. */
  method GlobMatch(pattern: Bytes, s: Bytes) returns (r: bool)
    ensures r <==> Match(Tokens(pattern), s)
  {
    var p, si, starP, starS := 0, 0, -1, 0;
    ghost var seg: seq<Token> := [];
    AtStart(pattern, s);
    while si < |s|
      invariant At(pattern, s, p, si, starP, starS, seg)
      decreases |s| - starS, |pattern| - starP, |s| - si
    {
      if p < |pattern| {
        if pattern[p] == STAR {
          MeetStar(pattern, s, p, si, starP, starS, seg);
          starP, starS, seg := p, si, [];
          p := p + 1;
          continue;
        }
        var next, ok := MatchOne(pattern, p, s[si]);
        if ok {
          TakeByte(pattern, s, p, si, starP, starS, seg, next, First(pattern[p..]).0);
          seg := seg + [First(pattern[p..]).0];
          p, si := next, si + 1;
          continue;
        }
      }
      NoToken(pattern, s, p, si);
      if starP >= 0 {
        GoBack(pattern, s, p, si, starP, starS, seg);
        starS, seg := starS + 1, [];
        si, p := starS, starP + 1;
        continue;
      }
      GiveUp(pattern, s, p, si, starS, seg);
      return false;
    }
    StringDone(pattern, s, p, starP, starS, seg);
    r := OnlyStarsLeft(pattern, p);
  }

  /** The loop over what is left of the pattern. */
  method OnlyStarsLeft(pattern: Bytes, from: nat) returns (r: bool)
    requires from <= |pattern|
    ensures r <==> Match(Tokens(pattern[from..]), [])
  {
    var p := from;
    while p < |pattern| && pattern[p] == STAR
      invariant p <= |pattern| && (Match(Tokens(pattern[from..]), []) <==> Match(Tokens(pattern[p..]), []))
    {
      OnlyStars(pattern, p);
      p := p + 1;
    }
    OnlyStars(pattern, p);
    return p == |pattern|;
  }
}
