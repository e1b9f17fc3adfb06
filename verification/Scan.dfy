/** SCAN: paging through the names of a store that does not change. */
module Scan {
  import opened Store
  import opened ByteOrder
  import opened Glob

  /** A physical key as the merged iterator shows it, and whether its newest version is live. */
  datatype Row = Row(key: Key, live: bool)

  ghost predicate Ascending(rows: seq<Row>) {
    forall i, j :: 0 <= i < j < |rows| ==> Lt(rows[i].key, rows[j].key)
  }

  // ---------------------------------------------------------------- names

  const STRING_TYPE: Byte := 115
  /** h, t, l, z and b: hashes, sets, lists, sorted sets and bitmaps. */
  const COLLECTION_TYPES: set<Byte> := {104, 116, 108, 122, 98}

  /** The name a physical key belongs to; empty when it has none. */
  function LogicalKey(k: Key): Bytes {
    if |k| < 2 || k[1] != NUL then k
    else if k[0] == STRING_TYPE then k[2..]
    else if k[0] in COLLECTION_TYPES && IndexNul(k[2..]) < |k[2..]| then k[2..2 + IndexNul(k[2..])]
    else []
  }

  /** Just past the keys of the collection that `k` belongs to. */
  function ResumeKey(k: Key): Key
    requires |k| > 2
  {
    var i := IndexNul(k[2..]);
    if i == |k[2..]| then k else k[..i + 3] + [255]
  }

  predicate Composite(k: Key) {
    |k| > 2 && k[1] == NUL
  }

  /** The bytes of a composite key up to and including the NUL after its name. */
  function Stem(k: Key): Key
    requires Composite(k)
  {
    k[..IndexMin(k)]
  }

  function IndexMin(k: Key): (i: nat)
    requires Composite(k)
    ensures i <= |k|
  {
    if IndexNul(k[2..]) + 3 <= |k| then IndexNul(k[2..]) + 3 else |k|
  }

  /** A string key whose name has a NUL in it. */
  predicate NulString(k: Key) {
    Composite(k) && k[0] == STRING_TYPE && IndexNul(k[2..]) < |k[2..]|
  }

  /** A string whose name has a NUL in it, and one that starts with its bytes up to that NUL, not followed by
      byte 255. */
  predicate Shadows(k: Key, x: Key) {
    NulString(k) && Stem(k) <= x && !(Stem(k) + [255] <= x)
  }

  /** No live string shadows a later one. */
  ghost predicate NoShadows(rows: seq<Row>) {
    forall i, j :: 0 <= i < j < |rows| && rows[i].live && rows[j].live ==> !Shadows(rows[i].key, rows[j].key)
  }

  // ---------------------------------------------------------------- skipping a collection

  /** What lies between a prefix and the prefix followed by 255 starts with the prefix. */
  lemma {:induction false} BetweenHasPrefix(p: Bytes, x: Bytes)
    requires !Lt(x, p) && Lt(x, p + [255])
    ensures p <= x
  {
    if p != [] {
      assert (p + [255])[1..] == p[1..] + [255];
      BetweenHasPrefix(p[1..], x[1..]);
      assert x[0] == p[0];
      assert p == [p[0]] + p[1..] && x == [x[0]] + x[1..];
    }
  }

  lemma {:induction false} IndexNulPrefix(a: Bytes, b: Bytes, i: nat)
    requires i < |a| && i == IndexNul(a) && i < |b| && a[..i + 1] == b[..i + 1]
    ensures IndexNul(b) == i
  {
    assert a[0] == a[..i + 1][0] && b[0] == b[..i + 1][0];
    if i > 0 {
      assert a[1..][..i] == a[..i + 1][1..] && b[1..][..i] == b[..i + 1][1..];
      IndexNulPrefix(a[1..], b[1..], i - 1);
    }
  }

  lemma {:induction false} BelowLast(p: Bytes, x: Bytes)
    requires p <= x && !(p + [255] <= x)
    ensures Lt(x, p + [255])
  {
    if p == [] {
      if x != [] { assert x == [x[0]] + x[1..]; }
    } else {
      assert (p + [255])[1..] == p[1..] + [255] && x == [x[0]] + x[1..] && p == [p[0]] + p[1..];
      BelowLast(p[1..], x[1..]);
    }
  }

  /** Keys that start with the stem of `k` belong to its collection, or are strings like it. */
  lemma SameStem(k: Key, x: Key)
    requires Composite(k) && LogicalKey(k) != [] && IndexNul(k[2..]) < |k[2..]| && Stem(k) <= x
    ensures Composite(x) && Stem(x) == Stem(k) && LogicalKey(x) != [] && x[0] == k[0]
    ensures IndexNul(x[2..]) == IndexNul(k[2..]) < |x[2..]|
    ensures k[0] != STRING_TYPE ==> LogicalKey(x) == LogicalKey(k)
  {
    var i := IndexNul(k[2..]);
    assert x[..i + 3] == k[..i + 3];
    assert x[0] == x[..i + 3][0] && x[1] == x[..i + 3][1];
    assert k[2..][..i + 1] == k[..i + 3][2..];
    assert x[2..][..i + 1] == x[..i + 3][2..];
    IndexNulPrefix(k[2..], x[2..], i);
    assert x[2..2 + i] == x[2..][..i + 1][..i] == k[2..2 + i];
  }

  /** Of the later keys, a string with a NUL in its name is followed by a seek past those it shadows. */
  lemma SeekOverShadows(k: Key, x: Key)
    requires NulString(k) && Lt(k, x)
    ensures Lt(x, ResumeKey(k)) <==> Shadows(k, x)
  {
    var p := Stem(k);
    LtAsym(k, x);
    PrefixNotGreater(p, k);
    NotLtTrans(x, k, p);
    if Lt(x, p + [255]) {
      BetweenHasPrefix(p, x);
      if p + [255] <= x { PrefixNotGreater(p + [255], x); }
    } else if p <= x && !(p + [255] <= x) {
      BelowLast(p, x);
    }
  }

  /** The keys that a reseek skips belong to the name just met, or are other strings that it shadows. */
  lemma SkippedSameName(k: Key, x: Key)
    requires Composite(k) && LogicalKey(k) != [] && Lt(k, x) && Lt(x, ResumeKey(k))
    ensures if NulString(k) then Shadows(k, x) && LogicalKey(x) != [] && LogicalKey(x) != LogicalKey(k)
            else LogicalKey(x) == LogicalKey(k)
  {
    LtAsym(k, x);
    LtIrreflexive(k);
    if IndexNul(k[2..]) < |k[2..]| {
      var p := Stem(k);
      PrefixNotGreater(p, k);
      NotLtTrans(x, k, p);
      BetweenHasPrefix(p, x);
      SameStem(k, x);
      if NulString(k) {
        SeekOverShadows(k, x);
        assert x == x[..2] + x[2..] && k == k[..2] + k[2..] && x[..2] == k[..2];
      }
    }
  }

  // ---------------------------------------------------------------- the merged iterator

  /** Where an iterator stands after a seek: at the first row whose key is not smaller. */
  function SeekTo(rows: seq<Row>, k: Key): (i: nat)
    ensures i <= |rows|
  {
    if rows != [] && Lt(rows[0].key, k) then 1 + SeekTo(rows[1..], k) else 0
  }

  lemma {:induction false} SeekSplits(rows: seq<Row>, k: Key, i: nat)
    requires Ascending(rows) && i < |rows|
    ensures Lt(rows[i].key, k) <==> i < SeekTo(rows, k)
  {
    if Lt(rows[0].key, k) {
      if i > 0 { SeekSplits(rows[1..], k, i - 1); }
    } else if i > 0 {
      assert Lt(rows[0].key, rows[i].key);
      if Lt(rows[i].key, k) { LtTrans(rows[0].key, rows[i].key, k); }
    }
  }

  /** A seek to a key that is there lands on it. */
  lemma SeekFinds(rows: seq<Row>, i: nat)
    requires Ascending(rows) && i < |rows|
    ensures SeekTo(rows, rows[i].key) == i
  {
    var k := rows[i].key;
    LtIrreflexive(k);
    SeekSplits(rows, k, i);
    if i > 0 { SeekSplits(rows, k, i - 1); }
  }

  // ---------------------------------------------------------------- what the pages should say

  ghost predicate Named(rows: seq<Row>, lo: nat, hi: nat, i: nat, n: Bytes) {
    lo <= i < hi && i < |rows| && rows[i].live && LogicalKey(rows[i].key) == n && n != []
  }

  /** `n` is a name with a live key among the rows from `lo` to `hi`. */
  ghost predicate HasName(rows: seq<Row>, lo: nat, hi: nat, n: Bytes) {
    exists i: nat :: Named(rows, lo, hi, i, n)
  }

  ghost predicate Wanted(pattern: Bytes, n: Bytes) {
    Match(Tokens(pattern), n)
  }

  /** `names` are the wanted names of the rows from `lo` to `hi`. */
  ghost predicate Reports(rows: seq<Row>, lo: nat, hi: nat, pattern: Bytes, names: set<Bytes>) {
    forall n :: ReportsAt(rows, lo, hi, pattern, names, n)
  }

  ghost predicate ReportsAt(rows: seq<Row>, lo: nat, hi: nat, pattern: Bytes, names: set<Bytes>, n: Bytes) {
    n in names <==> HasName(rows, lo, hi, n) && Wanted(pattern, n)
  }

  ghost predicate Knows(rows: seq<Row>, lo: nat, hi: nat, seen: set<Bytes>) {
    forall n :: KnowsAt(rows, lo, hi, seen, n)
  }

  ghost predicate KnowsAt(rows: seq<Row>, lo: nat, hi: nat, seen: set<Bytes>, n: Bytes) {
    n in seen <==> HasName(rows, lo, hi, n)
  }

  /** `names` are the wanted ones of `seen`. */
  ghost predicate Picks(pattern: Bytes, seen: set<Bytes>, names: set<Bytes>) {
    forall n :: PicksAt(pattern, seen, names, n)
  }

  ghost predicate PicksAt(pattern: Bytes, seen: set<Bytes>, names: set<Bytes>, n: Bytes) {
    n in names <==> n in seen && Wanted(pattern, n)
  }

  lemma NamesStep(rows: seq<Row>, lo: nat, hi: nat, n: Bytes)
    requires lo <= hi < |rows|
    ensures HasName(rows, lo, hi + 1, n) <==>
              HasName(rows, lo, hi, n) || (rows[hi].live && LogicalKey(rows[hi].key) == n && n != [])
  {
    if HasName(rows, lo, hi, n) {
      var i: nat :| Named(rows, lo, hi, i, n);
      assert Named(rows, lo, hi + 1, i, n);
    }
    if rows[hi].live && LogicalKey(rows[hi].key) == n && n != [] { assert Named(rows, lo, hi + 1, hi, n); }
    if HasName(rows, lo, hi + 1, n) {
      var i: nat :| Named(rows, lo, hi + 1, i, n);
      if i < hi { assert Named(rows, lo, hi, i, n); }
    }
  }

  /** Skipping rows that are not live or of a name that is known adds no name. */
  lemma NamesSkip(rows: seq<Row>, lo: nat, hi: nat, to: nat, known: Bytes, n: Bytes)
    requires lo <= hi <= to <= |rows| && HasName(rows, lo, hi, known)
    requires forall i :: hi <= i < to && rows[i].live ==> LogicalKey(rows[i].key) == known
    ensures HasName(rows, lo, to, n) <==> HasName(rows, lo, hi, n)
  {
    if HasName(rows, lo, hi, n) {
      var i: nat :| Named(rows, lo, hi, i, n);
      assert Named(rows, lo, to, i, n);
    }
    if HasName(rows, lo, to, n) {
      var i: nat :| Named(rows, lo, to, i, n);
      if i < hi { assert Named(rows, lo, hi, i, n); }
    }
  }

  lemma NamesJoin(rows: seq<Row>, lo: nat, mid: nat, hi: nat, n: Bytes)
    requires lo <= mid <= hi
    ensures HasName(rows, lo, hi, n) <==> HasName(rows, lo, mid, n) || HasName(rows, mid, hi, n)
  {
    if HasName(rows, lo, hi, n) {
      var i: nat :| Named(rows, lo, hi, i, n);
      assert if i < mid then Named(rows, lo, mid, i, n) else Named(rows, mid, hi, i, n);
    }
    if HasName(rows, lo, mid, n) {
      var i: nat :| Named(rows, lo, mid, i, n);
      assert Named(rows, lo, hi, i, n);
    }
    if HasName(rows, mid, hi, n) {
      var i: nat :| Named(rows, mid, hi, i, n);
      assert Named(rows, lo, hi, i, n);
    }
  }

  // ---------------------------------------------------------------- one page

  /** Where a page stands: the row it is at, the names met and wanted so far, and the rows looked at. */
  datatype Progress = Progress(pos: nat, seen: set<Bytes>, names: set<Bytes>, scanned: nat)

  function Budget(count: nat): nat {
    if count * 4 < 64 then 64 else if count * 4 > 8192 then 8192 else count * 4
  }

  ghost predicate Full(s: Progress, count: nat) {
    |s.names| >= count || s.scanned >= Budget(count)
  }

  /** A live row whose name has not been met in this page. */
  ghost predicate IsNew(rows: seq<Row>, s: Progress) {
    s.pos < |rows| && rows[s.pos].live && LogicalKey(rows[s.pos].key) != [] && LogicalKey(rows[s.pos].key) !in s.seen
  }

  /** A new name: composite keys are followed by a seek past their collection. */
  ghost function Meet(rows: seq<Row>, pattern: Bytes, s: Progress): Progress
    requires IsNew(rows, s)
  {
    var k := rows[s.pos].key;
    var n := LogicalKey(k);
    Progress(if Composite(k) then SeekTo(rows, ResumeKey(k)) else s.pos + 1,
             s.seen + {n}, if Wanted(pattern, n) then s.names + {n} else s.names, s.scanned + 1)
  }

  ghost function Pass(s: Progress): Progress {
    Progress(s.pos + 1, s.seen, s.names, s.scanned + 1)
  }

  ghost function AllNames(rows: seq<Row>): set<Bytes> {
    set i | 0 <= i < |rows| :: LogicalKey(rows[i].key)
  }

  lemma FewerLeft(all: set<Bytes>, seen: set<Bytes>, n: Bytes)
    requires n in all && n !in seen
    ensures |all - (seen + {n})| < |all - seen|
  {
    assert all - (seen + {n}) == (all - seen) - {n};
  }

  /** The page loop. */
  ghost function Page(rows: seq<Row>, pattern: Bytes, count: nat, s: Progress): Progress
    decreases |AllNames(rows) - s.seen|, |rows| - s.pos
  {
    if s.pos >= |rows| then s
    else if IsNew(rows, s) then
      var t := Meet(rows, pattern, s);
      FewerLeft(AllNames(rows), s.seen, LogicalKey(rows[s.pos].key));
      if Composite(rows[s.pos].key) || !Full(t, count) then Page(rows, pattern, count, t) else t
    else if Full(Pass(s), count) then Pass(s)
    else Page(rows, pattern, count, Pass(s))
  }

  ghost function StartAt(pos: nat): Progress {
    Progress(pos, {}, {}, 0)
  }

  // ---------------------------------------------------------------- pages that never go back

  /** A composite key whose part after the first NUL in its name starts with byte 255. */
  ghost predicate High(k: Key) {
    Composite(k) && LogicalKey(k) != [] && Stem(k) + [255] <= k
  }

  /** Two such keys that are the same up to there, of which the later one is live. */
  ghost predicate TurnsBack(rows: seq<Row>, i: nat, j: nat) {
    i < j < |rows| && High(rows[i].key) && High(rows[j].key) && Stem(rows[i].key) == Stem(rows[j].key) && rows[j].live
  }

  ghost predicate NeverTurnsBack(rows: seq<Row>) {
    forall i: nat, j: nat :: !TurnsBack(rows, i, j)
  }

  /** The first NUL after the name of a high key is in front of its byte 255. */
  lemma HighHasNul(k: Key)
    requires High(k)
    ensures IndexNul(k[2..]) < |k[2..]| && ResumeKey(k) == Stem(k) + [255]
  {
    assert |Stem(k) + [255]| <= |k|;
  }

  lemma EarlierBelow(rows: seq<Row>, pos: nat, q: nat)
    requires Ascending(rows) && NeverTurnsBack(rows) && q < pos < |rows| && rows[pos].live
    requires Composite(rows[pos].key) && LogicalKey(rows[pos].key) != []
    ensures Lt(rows[q].key, ResumeKey(rows[pos].key))
  {
    if !Lt(rows[q].key, ResumeKey(rows[pos].key)) { SeekBackIsHigh(rows, pos, q); }
  }

  /** The seek past a collection does not go back. */
  lemma SeekPast(rows: seq<Row>, pos: nat)
    requires Ascending(rows) && NeverTurnsBack(rows) && pos < |rows| && rows[pos].live
    requires Composite(rows[pos].key) && LogicalKey(rows[pos].key) != []
    ensures pos <= SeekTo(rows, ResumeKey(rows[pos].key))
  {
    if pos > 0 {
      EarlierBelow(rows, pos, pos - 1);
      SeekSplits(rows, ResumeKey(rows[pos].key), pos - 1);
    }
  }

  lemma SeekBackIsHigh(rows: seq<Row>, pos: nat, q: nat)
    requires Ascending(rows) && q < pos < |rows| && rows[pos].live
    requires Composite(rows[pos].key) && LogicalKey(rows[pos].key) != []
    requires !Lt(rows[q].key, ResumeKey(rows[pos].key))
    ensures TurnsBack(rows, q, pos)
  {
    var k, x := rows[pos].key, rows[q].key;
    assert Lt(x, k);
    BackIsHigh(k, x);
  }

  /** A seek goes back only over keys that are high. */
  lemma BackIsHigh(k: Key, x: Key)
    requires Composite(k) && LogicalKey(k) != [] && Lt(x, k) && !Lt(x, ResumeKey(k))
    ensures High(x) && High(k) && Stem(x) == Stem(k)
  {
    var p := Stem(k);
    LtAsym(x, k);
    assert ResumeKey(k) == p + [255];
    NotLtTrans(k, x, p + [255]);
    if !(p + [255] <= k) { BelowLast(p, k); }
    PrefixBetween(p + [255], x, k);
    assert p <= p + [255] <= x;
    SameStem(k, x);
  }

  // ---------------------------------------------------------------- what a page reports

  /** The rows from `lo` to `hi` are dealt with; the page may still be at the last of them. */
  ghost predicate Covered(rows: seq<Row>, pattern: Bytes, lo: nat, hi: nat, s: Progress) {
    && lo <= hi <= |rows| && s.pos <= hi <= s.pos + 1 && Knows(rows, lo, hi, s.seen) && Picks(pattern, s.seen, s.names)
  }

  lemma PassCovers(rows: seq<Row>, pattern: Bytes, lo: nat, hi: nat, s: Progress)
    requires Covered(rows, pattern, lo, hi, s) && s.pos < |rows| && lo <= s.pos && !IsNew(rows, s)
    ensures Covered(rows, pattern, lo, s.pos + 1, Pass(s))
  {
    if hi == s.pos {
      var next := hi + 1;
      forall n ensures KnowsAt(rows, lo, next, s.seen, n) {
        assert KnowsAt(rows, lo, hi, s.seen, n);
        NamesStep(rows, lo, hi, n);
      }
    }
  }

  lemma NewIsNext(rows: seq<Row>, pattern: Bytes, lo: nat, hi: nat, s: Progress)
    requires Covered(rows, pattern, lo, hi, s) && IsNew(rows, s) && lo <= s.pos
    ensures hi == s.pos
  {
    assert KnowsAt(rows, lo, hi, s.seen, LogicalKey(rows[s.pos].key));
    if hi == s.pos + 1 { assert Named(rows, lo, hi, s.pos, LogicalKey(rows[s.pos].key)); }
  }

  lemma MeetKnows(rows: seq<Row>, lo: nat, s: Progress, n: Bytes)
    requires Knows(rows, lo, s.pos, s.seen) && IsNew(rows, s) && lo <= s.pos && n == LogicalKey(rows[s.pos].key)
    ensures Knows(rows, lo, s.pos + 1, s.seen + {n})
  {
    var next, seen := s.pos + 1, s.seen + {n};
    forall m ensures KnowsAt(rows, lo, next, seen, m) {
      assert KnowsAt(rows, lo, s.pos, s.seen, m);
      NamesStep(rows, lo, s.pos, m);
    }
  }

  lemma SkipKnows(rows: seq<Row>, lo: nat, hi: nat, to: nat, seen: set<Bytes>, known: Bytes)
    requires Knows(rows, lo, hi, seen) && lo <= hi <= to <= |rows| && known in seen
    requires forall i :: hi <= i < to && rows[i].live ==> LogicalKey(rows[i].key) == known
    ensures Knows(rows, lo, to, seen)
  {
    assert KnowsAt(rows, lo, hi, seen, known);
    forall n ensures KnowsAt(rows, lo, to, seen, n) {
      assert KnowsAt(rows, lo, hi, seen, n);
      NamesSkip(rows, lo, hi, to, known, n);
    }
  }

  /** The live rows a seek skips have the name just met, if it shadows none. */
  lemma SkippedRows(rows: seq<Row>, pos: nat, i: nat)
    requires Ascending(rows) && NoShadows(rows) && pos < i < |rows| && LogicalKey(rows[pos].key) != []
    requires Composite(rows[pos].key) && i < SeekTo(rows, ResumeKey(rows[pos].key)) && rows[pos].live && rows[i].live
    ensures LogicalKey(rows[i].key) == LogicalKey(rows[pos].key)
  {
    SeekSplits(rows, ResumeKey(rows[pos].key), i);
    SkippedSameName(rows[pos].key, rows[i].key);
  }

  lemma MeetPicks(pattern: Bytes, seen: set<Bytes>, names: set<Bytes>, n: Bytes)
    requires Picks(pattern, seen, names)
    ensures Picks(pattern, seen + {n}, if Wanted(pattern, n) then names + {n} else names)
  {
    var seen', names' := seen + {n}, if Wanted(pattern, n) then names + {n} else names;
    forall m ensures PicksAt(pattern, seen', names', m) { assert PicksAt(pattern, seen, names, m); }
  }

  lemma MeetCovers(rows: seq<Row>, pattern: Bytes, lo: nat, s: Progress) returns (hi: nat)
    requires Ascending(rows) && NoShadows(rows) && NeverTurnsBack(rows)
    requires Covered(rows, pattern, lo, s.pos, s) && IsNew(rows, s) && lo <= s.pos
    ensures Covered(rows, pattern, lo, hi, Meet(rows, pattern, s)) && s.pos <= Meet(rows, pattern, s).pos && s.pos < hi
    ensures !Composite(rows[s.pos].key) ==> hi == Meet(rows, pattern, s).pos
  {
    var k := rows[s.pos].key;
    var n := LogicalKey(k);
    MeetKnows(rows, lo, s, n);
    MeetPicks(pattern, s.seen, s.names, n);
    hi := s.pos + 1;
    if Composite(k) {
      SeekPast(rows, s.pos);
      var to := SeekTo(rows, ResumeKey(k));
      if to > s.pos {
        forall i | s.pos + 1 <= i < to && rows[i].live
          ensures LogicalKey(rows[i].key) == n { SkippedRows(rows, s.pos, i); }
        SkipKnows(rows, lo, s.pos + 1, to, s.seen + {n}, n);
        hi := to;
      }
    }
  }

  lemma CoveredReports(rows: seq<Row>, pattern: Bytes, lo: nat, s: Progress)
    requires Covered(rows, pattern, lo, s.pos, s)
    ensures Reports(rows, lo, s.pos, pattern, s.names)
  {
    forall n ensures ReportsAt(rows, lo, s.pos, pattern, s.names, n) {
      assert KnowsAt(rows, lo, s.pos, s.seen, n) && PicksAt(pattern, s.seen, s.names, n);
    }
  }

  /** From `s`, having dealt with the rows up to `hi`, a page ends at `t`. */
  ghost predicate Ends(rows: seq<Row>, pattern: Bytes, lo: nat, hi: nat, s: Progress, t: Progress) {
    && hi <= t.pos <= |rows| && (s.pos < |rows| ==> s.pos < t.pos) && Reports(rows, lo, t.pos, pattern, t.names)
  }

  /** If pages do not turn back and no string shadows another, a page moves on and reports exactly the wanted
      names of the rows it moved over. */
  lemma {:induction false} PageReports(rows: seq<Row>, pattern: Bytes, count: nat, lo: nat, hi: nat, s: Progress)
    requires Ascending(rows) && NoShadows(rows) && NeverTurnsBack(rows)
    requires Covered(rows, pattern, lo, hi, s) && lo <= s.pos
    ensures Ends(rows, pattern, lo, hi, s, Page(rows, pattern, count, s))
    decreases |AllNames(rows) - s.seen|, |rows| - s.pos
  {
    if s.pos >= |rows| {
      CoveredReports(rows, pattern, lo, s);
    } else if IsNew(rows, s) {
      NewIsNext(rows, pattern, lo, hi, s);
      PageMeets(rows, pattern, count, lo, s);
    } else {
      PassCovers(rows, pattern, lo, hi, s);
      if Full(Pass(s), count) { CoveredReports(rows, pattern, lo, Pass(s)); }
      else { PageReports(rows, pattern, count, lo, s.pos + 1, Pass(s)); }
    }
  }

  lemma {:induction false} PageMeets(rows: seq<Row>, pattern: Bytes, count: nat, lo: nat, s: Progress)
    requires Ascending(rows) && NoShadows(rows) && NeverTurnsBack(rows)
    requires Covered(rows, pattern, lo, s.pos, s) && lo <= s.pos && IsNew(rows, s)
    ensures Ends(rows, pattern, lo, s.pos, s, Page(rows, pattern, count, s))
    decreases |AllNames(rows) - s.seen|, |rows| - s.pos, 0
  {
    var t := Meet(rows, pattern, s);
    var hi := MeetCovers(rows, pattern, lo, s);
    if Composite(rows[s.pos].key) || !Full(t, count) {
      FewerLeft(AllNames(rows), s.seen, LogicalKey(rows[s.pos].key));
      PageReports(rows, pattern, count, lo, hi, t);
    } else {
      CoveredReports(rows, pattern, lo, t);
    }
  }

  // ---------------------------------------------------------------- exactly when pages move on

  /** Every page ends beyond where it started. */
  ghost predicate MovesOn(rows: seq<Row>) {
    forall pattern, count: nat, start: nat :: count > 0 && start < |rows| ==> Advances(rows, pattern, count, start)
  }

  ghost predicate Advances(rows: seq<Row>, pattern: Bytes, count: nat, start: nat) {
    start < Page(rows, pattern, count, StartAt(start)).pos
  }

  lemma StartCovered(rows: seq<Row>, pattern: Bytes, start: nat)
    requires start <= |rows|
    ensures Covered(rows, pattern, start, start, StartAt(start))
  {
    forall n ensures KnowsAt(rows, start, start, {}, n) {}
    forall n ensures PicksAt(pattern, {}, {}, n) {}
  }

  lemma StarWants(n: Bytes)
    ensures Wanted([STAR], n)
  {
    var b: Bytes := [STAR];
    assert b[1..] == [] && Tokens(b) == [Star];
    MatchAnything(n);
  }

  lemma {:induction false} MatchAnything(n: Bytes)
    ensures Match([Star], n)
  {
    var ts := [Star];
    assert ts[1..] == [];
    if n != [] { MatchAnything(n[1..]); }
  }

  /** A page that starts at the later key seeks back to the first one and ends there. */
  lemma TurnBackStalls(rows: seq<Row>, i: nat, j: nat)
    requires Ascending(rows) && TurnsBack(rows, i, j)
    ensures !Advances(rows, [STAR], 1, j)
  {
    PageStays(rows, i, j, StartAt(j));
  }

  /** A page moves on if pages do not turn back. */
  lemma {:induction false} PageAdvances(rows: seq<Row>, pattern: Bytes, count: nat, s: Progress)
    requires Ascending(rows) && NeverTurnsBack(rows) && s.pos < |rows|
    ensures s.pos < Page(rows, pattern, count, s).pos
    decreases |AllNames(rows) - s.seen|, |rows| - s.pos
  {
    if IsNew(rows, s) {
      var t := Meet(rows, pattern, s);
      FewerLeft(AllNames(rows), s.seen, LogicalKey(rows[s.pos].key));
      if Composite(rows[s.pos].key) { SeekPast(rows, s.pos); }
      if t.pos < |rows| { PageAdvances(rows, pattern, count, t); }
    } else if Pass(s).pos < |rows| {
      PageAdvances(rows, pattern, count, Pass(s));
    }
  }

  /** Pages move on, whatever the pattern, the count and the cursor, exactly when no collection has
      two keys that follow its name with byte 255, the later one live, and no two string names do so with
      their bytes up to the first NUL. */
  lemma MovesOnIff(rows: seq<Row>)
    requires Ascending(rows)
    ensures MovesOn(rows) <==> NeverTurnsBack(rows)
  {
    if NeverTurnsBack(rows) {
      forall pattern, count: nat, start: nat | count > 0 && start < |rows|
        ensures Advances(rows, pattern, count, start) {
        PageAdvances(rows, pattern, count, StartAt(start));
      }
    } else {
      var i: nat, j: nat :| TurnsBack(rows, i, j);
      TurnBackStalls(rows, i, j);
    }
  }

  // ---------------------------------------------------------------- clients that follow the cursors

  lemma SeekAtMost(rows: seq<Row>, k: Key, i: nat)
    requires Ascending(rows) && i < |rows| && !Lt(rows[i].key, k)
    ensures SeekTo(rows, k) <= i
  {
    SeekSplits(rows, k, i);
  }

  /** No seek from a row up to the later key goes past the earlier one. */
  lemma Landing(rows: seq<Row>, i: nat, j: nat, p: nat)
    requires Ascending(rows) && TurnsBack(rows, i, j) && p <= j
    requires Composite(rows[p].key) && LogicalKey(rows[p].key) != []
    ensures SeekTo(rows, ResumeKey(rows[p].key)) <= i
  {
    if p < i { LandsBefore(rows[p].key, rows[i].key); } else { LandsWithin(rows[i].key, rows[p].key, rows[j].key); }
    SeekAtMost(rows, ResumeKey(rows[p].key), i);
  }

  lemma LandsWithin(x: Key, k: Key, y: Key)
    requires High(x) && High(y) && Stem(x) == Stem(y) && (k == x || Lt(x, k)) && (k == y || Lt(k, y))
    ensures Composite(k) && !Lt(x, ResumeKey(k))
  {
    var high := Stem(x) + [255];
    HighHasNul(x);
    PrefixNotGreater(high, x);
    LtIrreflexive(k);
    if k != x { LtAsym(x, k); }
    if k != y { LtAsym(k, y); }
    NotLtTrans(k, x, high);
    PrefixBetween(high, k, y);
    assert Stem(x) <= high <= k;
    SameStem(x, k);
  }

  lemma LandsBefore(k: Key, x: Key)
    requires Lt(k, x) && Composite(k) && LogicalKey(k) != [] && High(x)
    ensures !Lt(x, ResumeKey(k))
  {
    LtAsym(k, x);
    if IndexNul(k[2..]) < |k[2..]| && Lt(x, ResumeKey(k)) {
      PrefixNotGreater(Stem(k), k);
      NotLtTrans(x, k, Stem(k));
      BetweenHasPrefix(Stem(k), x);
      SameStem(k, x);
      PrefixNotGreater(Stem(k) + [255], x);
    }
  }

  /** In a page of one name for every pattern: until a name is met it has not passed the later key, and
      then it is not past the earlier one. */
  ghost predicate Held(i: nat, j: nat, s: Progress) {
    s.pos <= j && (s.names == {} <==> s.seen == {}) && (s.seen != {} ==> s.pos <= i)
  }

  /** Pages of one name never get past two such keys. */
  lemma {:induction false} PageStays(rows: seq<Row>, i: nat, j: nat, s: Progress)
    requires Ascending(rows) && TurnsBack(rows, i, j) && Held(i, j, s)
    ensures 0 < Page(rows, [STAR], 1, s).pos <= j
    decreases |AllNames(rows) - s.seen|, |rows| - s.pos
  {
    if IsNew(rows, s) {
      MeetHeld(rows, i, j, s);
      VisitShrinks(rows, [STAR], s);
      if Composite(rows[s.pos].key) { PageStays(rows, i, j, Meet(rows, [STAR], s)); }
    } else {
      PassHeld(rows, i, j, s);
      if !Full(Pass(s), 1) { PageStays(rows, i, j, Pass(s)); }
    }
  }

  lemma MeetHeld(rows: seq<Row>, i: nat, j: nat, s: Progress)
    requires Ascending(rows) && TurnsBack(rows, i, j) && Held(i, j, s) && IsNew(rows, s)
    ensures var t := Meet(rows, [STAR], s);
            if Composite(rows[s.pos].key) then Held(i, j, t) else t.pos <= j && Full(t, 1)
  {
    if Composite(rows[s.pos].key) { Landing(rows, i, j, s.pos); }
    StarNames(rows, s);
  }

  /** Under the pattern that matches everything, a name met is a name reported. */
  lemma StarNames(rows: seq<Row>, s: Progress)
    requires IsNew(rows, s)
    ensures |Meet(rows, [STAR], s).names| >= 1 && Meet(rows, [STAR], s).names != {}
  {
    var n := LogicalKey(rows[s.pos].key);
    StarWants(n);
    assert n in Meet(rows, [STAR], s).names;
  }

  lemma PassHeld(rows: seq<Row>, i: nat, j: nat, s: Progress)
    requires TurnsBack(rows, i, j) && Held(i, j, s) && !IsNew(rows, s)
    ensures Pass(s).pos <= j && (Full(Pass(s), 1) || Held(i, j, Pass(s)))
  {
    assert s.seen == {} ==> s.pos < j;
    assert s.seen != {} ==> Full(Pass(s), 1);
  }

  /** Where the page that starts at `at` ends. */
  ghost function PageEnd(rows: seq<Row>, pattern: Bytes, count: nat, at: nat): nat {
    if at >= |rows| then at else Page(rows, pattern, count, StartAt(at)).pos
  }

  /** Where a client is after `n` pages; it stops at the end. */
  ghost function After(rows: seq<Row>, pattern: Bytes, count: nat, n: nat): nat {
    if n == 0 then 0 else PageEnd(rows, pattern, count, After(rows, pattern, count, n - 1))
  }

  /** What a client's first `m` pages name. */
  ghost function NamesOf(rows: seq<Row>, pattern: Bytes, count: nat, m: nat): set<Bytes> {
    if m == 0 then {}
    else
      var at, names := After(rows, pattern, count, m - 1), NamesOf(rows, pattern, count, m - 1);
      if at >= |rows| then names else names + Page(rows, pattern, count, StartAt(at)).names
  }

  /** After `m` pages a client is at row `at` and has been told `names`. */
  ghost predicate Read(rows: seq<Row>, pattern: Bytes, count: nat, m: nat, at: nat, names: set<Bytes>) {
    at == After(rows, pattern, count, m) && names == NamesOf(rows, pattern, count, m)
  }

  ghost predicate Returns(rows: seq<Row>, pattern: Bytes, count: nat) {
    exists n :: After(rows, pattern, count, n) >= |rows|
  }

  lemma {:induction false} NeverPast(rows: seq<Row>, i: nat, j: nat, n: nat)
    requires Ascending(rows) && TurnsBack(rows, i, j)
    ensures After(rows, [STAR], 1, n) <= j
  {
    if n > 0 {
      NeverPast(rows, i, j, n - 1);
      PageNeverPast(rows, i, j, After(rows, [STAR], 1, n - 1));
    }
  }

  lemma PageNeverPast(rows: seq<Row>, i: nat, j: nat, at: nat)
    requires Ascending(rows) && TurnsBack(rows, i, j) && at <= j
    ensures PageEnd(rows, [STAR], 1, at) <= j
  {
    PageStays(rows, i, j, StartAt(at));
  }

  lemma {:induction false} GetsOn(rows: seq<Row>, pattern: Bytes, count: nat, n: nat)
    requires MovesOn(rows) && count > 0
    ensures After(rows, pattern, count, n) >= (if n < |rows| then n else |rows|)
  {
    if n > 0 {
      GetsOn(rows, pattern, count, n - 1);
      PageGetsOn(rows, pattern, count, After(rows, pattern, count, n - 1));
    }
  }

  lemma PageGetsOn(rows: seq<Row>, pattern: Bytes, count: nat, at: nat)
    requires MovesOn(rows) && count > 0
    ensures PageEnd(rows, pattern, count, at) >= if at < |rows| then at + 1 else at
  {
    if at < |rows| { assert Advances(rows, pattern, count, at); }
  }

  /** A client that starts with cursor 0 gets back to cursor 0, whatever the pattern and the count, if and
      only if pages never turn back. */
  lemma ReturnsIff(rows: seq<Row>)
    requires Ascending(rows)
    ensures (forall pattern, count: nat :: count > 0 ==> Returns(rows, pattern, count)) <==> NeverTurnsBack(rows)
  {
    if NeverTurnsBack(rows) {
      MovesOnIff(rows);
      forall pattern, count: nat | count > 0
        ensures Returns(rows, pattern, count) { GetsOn(rows, pattern, count, |rows|); }
    } else {
      var i: nat, j: nat :| TurnsBack(rows, i, j);
      forall n: nat ensures After(rows, [STAR], 1, n) < |rows| { NeverPast(rows, i, j, n); }
      assert !Returns(rows, [STAR], 1);
    }
  }

  const FIELD1: Key := [104, 0, 97, 0, 255, 1]
  const FIELD2: Key := [104, 0, 97, 0, 255, 2]

  /** A hash with two fields that begin with byte 255. */
  function TwoHighFields(): seq<Row> {
    [Row(FIELD1, true), Row(FIELD2, true)]
  }

  /** The second page of one name ends where it began, and so do all that follow. */
  lemma CursorRepeats()
    ensures var rows := TwoHighFields();
            && Ascending(rows) && TurnsBack(rows, 0, 1)
            && Page(rows, [STAR], 1, StartAt(0)).pos == 1 && Page(rows, [STAR], 1, StartAt(1)).pos == 1
            && CursorAt(rows, 1) != ZERO && StartRow(rows, CursorAt(rows, 1)) == Some(1)
  {
    var rows := TwoHighFields();
    HighFields();
    PageStays(rows, 0, 1, StartAt(0));
    PageStays(rows, 0, 1, StartAt(1));
    CursorRound(rows, 1);
  }

  lemma HighFields()
    ensures var rows := TwoHighFields(); Ascending(rows) && TurnsBack(rows, 0, 1)
  {
    HighField(FIELD1, 1);
    HighField(FIELD2, 2);
    FieldsAscend();
    TwoRows(FIELD1, FIELD2);
  }

  lemma TwoRows(a: Key, b: Key)
    requires High(a) && High(b) && Stem(a) == Stem(b) && Lt(a, b)
    ensures var rows := [Row(a, true), Row(b, true)]; Ascending(rows) && TurnsBack(rows, 0, 1)
  {}

  lemma FieldsAscend()
    ensures Lt(FIELD1, FIELD2)
  {
    var p: Bytes := [104, 0, 97, 0, 255];
    OneByte(1, 2);
    LtAfter(p, [1], [2]);
    assert p + [1] == FIELD1 && p + [2] == FIELD2;
  }

  lemma HighField(k: Key, b: Byte)
    requires k == [104, 0, 97, 0, 255, b]
    ensures High(k) && Stem(k) == [104, 0, 97, 0] && k[0] != STRING_TYPE
  {
    assert k[2..] == [97, 0, 255, b] && k[2..][1..] == [0, 255, b];
    assert IndexNul(k[2..]) == 1;
    assert k[..4] == [104, 0, 97, 0] && k[2..3] == [97];
    assert k[..5] == k[..4] + [255];
  }

  lemma {:induction false} LtAfter(p: Bytes, a: Bytes, b: Bytes)
    requires Lt(a, b)
    ensures Lt(p + a, p + b)
  {
    if p == [] {
      assert p + a == a && p + b == b;
    } else {
      assert (p + a)[1..] == p[1..] + a && (p + b)[1..] == p[1..] + b;
      LtAfter(p[1..], a, b);
    }
  }

  // ---------------------------------------------------------------- cursors

  function HexDigit(n: nat): Byte
    requires n < 16
  {
    if n < 10 then 48 + n else 87 + n
  }

  function HexValue(c: Byte): Option<nat> {
    if 48 <= c <= 57 then Some(c - 48)
    else if 97 <= c <= 102 then Some(c - 87)
    else if 65 <= c <= 70 then Some(c - 55)
    else None
  }

  function HexEncode(b: Bytes): Bytes {
    if b == [] then [] else [HexDigit(b[0] / 16), HexDigit(b[0] % 16)] + HexEncode(b[1..])
  }

  function HexDecode(s: Bytes): Option<Bytes> {
    if s == [] then Some([])
    else if |s| == 1 then None
    else
      var hi, lo, rest := HexValue(s[0]), HexValue(s[1]), HexDecode(s[2..]);
      if hi.None? || lo.None? || rest.None? || hi.value > 15 || lo.value > 15 then None
      else Some([hi.value * 16 + lo.value] + rest.value)
  }

  lemma {:induction false} HexRound(b: Bytes)
    ensures HexDecode(HexEncode(b)) == Some(b) && |HexEncode(b)| == 2 * |b|
  {
    if b != [] {
      HexRound(b[1..]);
      assert HexEncode(b)[2..] == HexEncode(b[1..]);
      assert b == [b[0]] + b[1..];
    }
  }

  const ZERO: Bytes := [48]

  /** The row a page starts at; none if the cursor is not hexadecimal. */
  function StartRow(rows: seq<Row>, cursor: Bytes): (r: Option<nat>)
    ensures r.Some? ==> r.value <= |rows|
  {
    if cursor == [] || cursor == ZERO then Some(0)
    else
      var seek := HexDecode(cursor);
      if seek.None? then None
      else
        var i := SeekTo(rows, seek.value);
        Some(if i < |rows| && rows[i].key == seek.value then i + 1 else i)
  }

  /** The cursor of a page that ended before row `pos`. */
  function CursorAt(rows: seq<Row>, pos: nat): Bytes {
    if 0 < pos < |rows| then HexEncode(rows[pos - 1].key) else ZERO
  }

  /** The next page starts where this one ended. */
  lemma CursorRound(rows: seq<Row>, pos: nat)
    requires Ascending(rows) && 0 < pos < |rows| && rows[pos - 1].key != []
    ensures CursorAt(rows, pos) != ZERO && StartRow(rows, CursorAt(rows, pos)) == Some(pos)
  {
    HexRound(rows[pos - 1].key);
    SeekFinds(rows, pos - 1);
  }

  /** No page ends right behind the empty key. */
  lemma {:induction false} NotBehindEmpty(rows: seq<Row>, pattern: Bytes, count: nat, s: Progress)
    requires Ascending(rows) && |rows| > 1 && rows[0].key == [] && s.pos > 0 && s.pos <= |rows|
    ensures Page(rows, pattern, count, s).pos > 1
    decreases |AllNames(rows) - s.seen|, |rows| - s.pos
  {
    if s.pos < |rows| {
      if IsNew(rows, s) {
        FewerLeft(AllNames(rows), s.seen, LogicalKey(rows[s.pos].key));
        if Composite(rows[s.pos].key) { SeekSplits(rows, ResumeKey(rows[s.pos].key), 0); }
        NotBehindEmpty(rows, pattern, count, Meet(rows, pattern, s));
      } else {
        NotBehindEmpty(rows, pattern, count, Pass(s));
      }
    }
  }

  lemma CursorNotEmpty(rows: seq<Row>, pattern: Bytes, count: nat, start: nat)
    requires Ascending(rows) && count > 0 && start <= |rows|
    ensures var pos := Page(rows, pattern, count, StartAt(start)).pos; 0 < pos < |rows| ==> rows[pos - 1].key != []
  {
    var pos := Page(rows, pattern, count, StartAt(start)).pos;
    if 0 < pos < |rows| && rows[0].key == [] {
      if start == 0 {
        assert !Full(Pass(StartAt(0)), count);
        NotBehindEmpty(rows, pattern, count, Pass(StartAt(0)));
      } else {
        NotBehindEmpty(rows, pattern, count, StartAt(start));
      }
    }
    if pos > 1 && pos < |rows| { assert Lt(rows[0].key, rows[pos - 1].key); }
  }

  // ---------------------------------------------------------------- the methods

  datatype Reply = Reply(names: set<Bytes>, next: Bytes) | BadCursor

  /** One page. */
  method ScanPage(rows: seq<Row>, pattern: Bytes, cursor: Bytes, requested: int) returns (r: Reply)
    requires Ascending(rows)
    ensures r.BadCursor? <==> StartRow(rows, cursor).None?
    ensures r.Reply? ==>
              var count := if requested <= 0 then 10 else requested;
              var end := Page(rows, pattern, count, StartAt(StartRow(rows, cursor).value));
              r.names == end.names && r.next == CursorAt(rows, end.pos)
  {
    var start := StartRow(rows, cursor);
    if start.None? { return BadCursor; }
    var names, end, last := PageLoop(rows, pattern, if requested <= 0 then 10 else requested, start.value);
    return Reply(names, if end < |rows| then HexEncode(last) else ZERO);
  }

  lemma PageStep(rows: seq<Row>, pattern: Bytes, count: nat, s: Progress)
    requires s.pos < |rows|
    ensures IsNew(rows, s) && Composite(rows[s.pos].key) ==>
              Page(rows, pattern, count, s) == Page(rows, pattern, count, Meet(rows, pattern, s))
    ensures IsNew(rows, s) && !Composite(rows[s.pos].key) ==>
              Page(rows, pattern, count, s) == Stop(rows, pattern, count, Meet(rows, pattern, s))
    ensures !IsNew(rows, s) ==> Page(rows, pattern, count, s) == Stop(rows, pattern, count, Pass(s))
  {}

  /** Ends the page if it is full. */
  ghost function Stop(rows: seq<Row>, pattern: Bytes, count: nat, s: Progress): Progress {
    if Full(s, count) then s else Page(rows, pattern, count, s)
  }

  /** Looks at one row; after a new composite key it seeks past the collection. */
  method VisitRow(rows: seq<Row>, pattern: Bytes, s: Progress) returns (t: Progress, last: Key, sought: bool)
    requires s.pos < |rows|
    ensures t == if IsNew(rows, s) then Meet(rows, pattern, s) else Pass(s)
    ensures sought <==> IsNew(rows, s) && Composite(rows[s.pos].key)
    ensures !sought ==> last == rows[s.pos].key
  {
    var k := rows[s.pos].key;
    var seen, names := s.seen, s.names;
    if rows[s.pos].live {
      var name := LogicalKey(k);
      if name != [] && name !in seen {
        seen := seen + {name};
        var wanted := GlobMatch(pattern, name);
        if wanted { names := names + {name}; }
        if |k| > 2 && k[1] == NUL {
          return Progress(SeekTo(rows, ResumeKey(k)), seen, names, s.scanned + 1), ResumeKey(k), true;
        }
      }
    }
    return Progress(s.pos + 1, seen, names, s.scanned + 1), k, false;
  }

  lemma VisitShrinks(rows: seq<Row>, pattern: Bytes, s: Progress)
    requires s.pos < |rows| && IsNew(rows, s)
    ensures |AllNames(rows) - Meet(rows, pattern, s).seen| < |AllNames(rows) - s.seen|
        && Meet(rows, pattern, s).pos <= |rows|
  {
    FewerLeft(AllNames(rows), s.seen, LogicalKey(rows[s.pos].key));
  }

  /** One turn of the page loop. */
  method Turn(rows: seq<Row>, pattern: Bytes, count: nat, s: Progress) returns (t: Progress, last: Key, done: bool)
    requires s.pos < |rows|
    ensures Page(rows, pattern, count, s) == if done then t else Page(rows, pattern, count, t)
    ensures t.pos <= |rows| && (done ==> t.pos > 0 && last == rows[t.pos - 1].key)
    ensures |AllNames(rows) - t.seen| < |AllNames(rows) - s.seen| || (t.seen == s.seen && t.pos > s.pos)
  {
    PageStep(rows, pattern, count, s);
    if IsNew(rows, s) { VisitShrinks(rows, pattern, s); }
    var sought;
    t, last, sought := VisitRow(rows, pattern, s);
    done := !sought && (|t.names| >= count || t.scanned >= Budget(count));
  }

  /** The loop over the rows of a page. */
  method PageLoop(rows: seq<Row>, pattern: Bytes, count: nat, start: nat)
    returns (names: set<Bytes>, pos: nat, last: Key)
    requires start <= |rows|
    ensures var end := Page(rows, pattern, count, StartAt(start)); names == end.names && pos == end.pos
    ensures pos < |rows| ==> pos > 0 && last == rows[pos - 1].key
  {
    var s := Progress(start, {}, {}, 0);
    ghost var goal := Page(rows, pattern, count, s);
    while s.pos < |rows|
      invariant s.pos <= |rows| && Page(rows, pattern, count, s) == goal
      decreases |AllNames(rows) - s.seen|, |rows| - s.pos
    {
      var t, at, done := Turn(rows, pattern, count, s);
      if done { return t.names, t.pos, at; }
      s := t;
    }
    return s.names, s.pos, [];
  }

  /** A client that follows the cursors gets back to cursor 0. If no string shadows another, the pages together
      name exactly the wanted names that have a live key. */
  method ScanAll(rows: seq<Row>, pattern: Bytes, count: nat) returns (all: set<Bytes>)
    requires Ascending(rows) && NeverTurnsBack(rows) && count > 0
    ensures exists m, at :: at >= |rows| && Read(rows, pattern, count, m, at, all)
    ensures NoShadows(rows) ==> Reports(rows, 0, |rows|, pattern, all)
  {
    all := {};
    var cursor := ZERO;
    ghost var at, m := 0, 0;
    StartReports(rows, pattern);
    while true
      invariant StartRow(rows, cursor) == Some(at) && Scanned(rows, pattern, count, m, at, all)
      decreases |rows| - at
    {
      var page := ScanPage(rows, pattern, cursor, count);
      ghost var end := Page(rows, pattern, count, StartAt(at)).pos;
      PageScanned(rows, pattern, count, m, at, all, end, page.names);
      NextCursor(rows, pattern, count, at, end);
      all := all + page.names;
      cursor, at, m := page.next, end, m + 1;
      if cursor == ZERO { break; }
    }
  }

  ghost predicate Scanned(rows: seq<Row>, pattern: Bytes, count: nat, m: nat, at: nat, names: set<Bytes>) {
    && at <= |rows| && Read(rows, pattern, count, m, at, names)
    && (NoShadows(rows) ==> Reports(rows, 0, at, pattern, names))
  }

  lemma PageScanned(rows: seq<Row>, pattern: Bytes, count: nat, m: nat, at: nat, all: set<Bytes>, end: nat,
      names: set<Bytes>)
    requires Ascending(rows) && NeverTurnsBack(rows) && Scanned(rows, pattern, count, m, at, all)
    requires var page := Page(rows, pattern, count, StartAt(at)); page.pos == end && page.names == names
    ensures Scanned(rows, pattern, count, m + 1, end, all + names)
  {
    PageRead(rows, pattern, count, m, at, all);
    PageInside(rows, pattern, count, StartAt(at));
    if NoShadows(rows) {
      StartCovered(rows, pattern, at);
      PageReports(rows, pattern, count, at, at, StartAt(at));
      ReportsJoin(rows, at, end, pattern, all, names);
    }
  }

  lemma PageRead(rows: seq<Row>, pattern: Bytes, count: nat, m: nat, at: nat, names: set<Bytes>)
    requires Read(rows, pattern, count, m, at, names) && at <= |rows|
    ensures var end := Page(rows, pattern, count, StartAt(at));
            Read(rows, pattern, count, m + 1, end.pos, names + end.names)
  {}

  /** Cursor 0 comes after the last row; any other one leads to the next page. */
  lemma NextCursor(rows: seq<Row>, pattern: Bytes, count: nat, at: nat, end: nat)
    requires Ascending(rows) && NeverTurnsBack(rows) && count > 0 && at <= |rows|
    requires Page(rows, pattern, count, StartAt(at)).pos == end
    ensures end <= |rows| && (at < |rows| ==> at < end) && (CursorAt(rows, end) == ZERO <==> end == |rows|)
    ensures CursorAt(rows, end) != ZERO ==> StartRow(rows, CursorAt(rows, end)) == Some(end)
  {
    if at < |rows| { PageAdvances(rows, pattern, count, StartAt(at)); }
    PageInside(rows, pattern, count, StartAt(at));
    CursorNotEmpty(rows, pattern, count, at);
    if 0 < end < |rows| { CursorRound(rows, end); }
  }

  lemma {:induction false} PageInside(rows: seq<Row>, pattern: Bytes, count: nat, s: Progress)
    requires s.pos <= |rows|
    ensures Page(rows, pattern, count, s).pos <= |rows|
    decreases |AllNames(rows) - s.seen|, |rows| - s.pos
  {
    if s.pos < |rows| {
      if IsNew(rows, s) {
        VisitShrinks(rows, pattern, s);
        PageInside(rows, pattern, count, Meet(rows, pattern, s));
      } else {
        PageInside(rows, pattern, count, Pass(s));
      }
    }
  }

  lemma StartReports(rows: seq<Row>, pattern: Bytes)
    ensures Reports(rows, 0, 0, pattern, {})
  {
    forall n ensures ReportsAt(rows, 0, 0, pattern, {}, n) {}
  }

  lemma ReportsJoin(rows: seq<Row>, mid: nat, hi: nat, pattern: Bytes, a: set<Bytes>, b: set<Bytes>)
    requires mid <= hi && Reports(rows, 0, mid, pattern, a) && Reports(rows, mid, hi, pattern, b)
    ensures Reports(rows, 0, hi, pattern, a + b)
  {
    var all := a + b;
    forall n ensures ReportsAt(rows, 0, hi, pattern, all, n) {
      assert ReportsAt(rows, 0, mid, pattern, a, n) && ReportsAt(rows, mid, hi, pattern, b, n);
      NamesJoin(rows, 0, mid, hi, n);
    }
  }

  // ---------------------------------------------------------------- names with a NUL in them

  /** A live row that the step after `s` jumps over, and whose name the page has not met. */
  ghost predicate Overlooked(rows: seq<Row>, pattern: Bytes, s: Progress, i: nat)
    requires IsNew(rows, s)
  {
    var t := Meet(rows, pattern, s);
    s.pos < i < t.pos && rows[i].live && LogicalKey(rows[i].key) !in t.seen
  }

  /** A later live string that the row at `s` shadows, and whose name the page has not met. */
  ghost predicate Shadowed(rows: seq<Row>, s: Progress, i: nat) {
    s.pos < i < |rows| && rows[i].live && LogicalKey(rows[i].key) !in s.seen && Shadows(rows[s.pos].key, rows[i].key)
  }

  /** A step loses a name exactly when its key is a string with a NUL in its name and shadows a later string. */
  lemma LosesNameIff(rows: seq<Row>, pattern: Bytes, s: Progress)
    requires Ascending(rows) && IsNew(rows, s)
    ensures Meet(rows, pattern, s).pos <= |rows|
    ensures (exists i: nat :: Overlooked(rows, pattern, s, i)) <==> exists i: nat :: Shadowed(rows, s, i)
  {
    forall i: nat | s.pos < i < |rows|
      ensures Overlooked(rows, pattern, s, i) <==> Shadowed(rows, s, i) { OverlookedIff(rows, pattern, s, i); }
  }

  lemma OverlookedIff(rows: seq<Row>, pattern: Bytes, s: Progress, i: nat)
    requires Ascending(rows) && IsNew(rows, s) && s.pos < i < |rows|
    ensures Overlooked(rows, pattern, s, i) <==> Shadowed(rows, s, i)
  {
    var k, x := rows[s.pos].key, rows[i].key;
    if Composite(k) {
      SeekSplits(rows, ResumeKey(k), i);
      if NulString(k) { SeekOverShadows(k, x); }
      if Lt(x, ResumeKey(k)) { SkippedSameName(k, x); }
    }
  }

  const NAME1: Key := [115, 0, 97, 0, 1]
  const NAME2: Key := [115, 0, 97, 0, 2]

  /** Of two live strings, a scan of everything names one and ends. */
  lemma NameLost()
    ensures var rows := [Row(NAME1, true), Row(NAME2, true)]; var page := Page(rows, [STAR], 10, StartAt(0));
            && Ascending(rows) && page.pos == |rows|
            && page.names == {NAME1[2..]} && HasName(rows, 0, |rows|, NAME2[2..])
  {
    var rows := [Row(NAME1, true), Row(NAME2, true)];
    NamesAscend();
    var s := StartAt(0);
    assert NAME1[2..] == [97, 0, 1] && NAME2[2..] == [97, 0, 2];
    StarWants(NAME1[2..]);
    PageStep(rows, [STAR], 10, s);
    var t := Meet(rows, [STAR], s);
    NameStem();
    SeekSplits(rows, ResumeKey(NAME1), 0);
    SeekSplits(rows, ResumeKey(NAME1), 1);
    assert t.pos == 2 && t.names == {NAME1[2..]};
    assert Named(rows, 0, 2, 1, NAME2[2..]);
  }

  lemma NamesAscend()
    ensures Lt(NAME1, NAME2)
  {
    var p: Bytes := [115, 0, 97, 0];
    OneByte(1, 2);
    LtAfter(p, [1], [2]);
    assert p + [1] == NAME1 && p + [2] == NAME2;
  }

  lemma NameStem()
    ensures Lt(NAME1, ResumeKey(NAME1)) && Lt(NAME2, ResumeKey(NAME1))
  {
    var p: Bytes := [115, 0, 97, 0];
    var r: Bytes := [97, 0, 1];
    assert r[1..] == [0, 1];
    assert NAME1[2..] == r && IndexNul(r) == 1;
    assert ResumeKey(NAME1) == p + [255];
    OneByte(1, 255);
    OneByte(2, 255);
    LtAfter(p, [1], [255]);
    LtAfter(p, [2], [255]);
    assert p + [1] == NAME1 && p + [2] == NAME2;
  }
}
