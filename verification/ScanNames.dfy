/** Which keys a name of SCAN stands for: the types and the layout of the keys that the commands write. */
module ScanNames {
  import opened Store
  import opened ByteOrder
  import opened Glob
  import opened Scan
  import SortedSet
  import Bitmap

  /** `k` is a key of `name`: a key without a type, a string (115, 's'), or a key of a hash, a set, a list, a
      sorted set or a bitmap (104, 116, 108, 122, 98: 'h', 't', 'l', 'z', 'b'). */
  predicate KeyOf(k: Key, name: Bytes) {
    || (name == k && (|k| < 2 || k[1] != 0))
    || k == [115, 0] + name
    || (|k| > 0 && k[0] in {104, 116, 108, 122, 98} && 0 !in name && [k[0], 0] + name + [0] <= k)
  }

  lemma {:induction false} NulAfter(name: Bytes, rest: Bytes)
    requires 0 !in name
    ensures IndexNul(name + [0] + rest) == |name|
  {
    var b := name + [0] + rest;
    if name != [] {
      assert b[0] == name[0] && b[1..] == name[1..] + [0] + rest;
      NulAfter(name[1..], rest);
    }
  }

  lemma {:induction false} NoNulBefore(b: Bytes)
    ensures 0 !in b[..IndexNul(b)] && (IndexNul(b) < |b| ==> b[IndexNul(b)] == 0)
  {
    if b != [] && b[0] != NUL {
      NoNulBefore(b[1..]);
      assert b[..IndexNul(b)] == [b[0]] + b[1..][..IndexNul(b[1..])];
    }
  }

  /** A key has a name exactly when it is a key of that name. */
  lemma LogicalKeyIff(k: Key, name: Bytes)
    requires name != []
    ensures LogicalKey(k) == name <==> KeyOf(k, name)
  {
    if |k| >= 2 && k[1] == NUL {
      assert k == [k[0], 0] + k[2..];
      if k[0] == STRING_TYPE {
        assert ([115, 0] + name)[2..] == name;
      } else if k[0] in {104, 116, 108, 122, 98} {
        CollectionKeyIff(k, name);
      }
    }
  }

  lemma CollectionKeyIff(k: Key, name: Bytes)
    requires name != [] && |k| >= 2 && k[1] == 0 && k[0] in {104, 116, 108, 122, 98}
    ensures LogicalKey(k) == name <==> 0 !in name && [k[0], 0] + name + [0] <= k
  {
    var b := k[2..];
    var i := IndexNul(b);
    NoNulBefore(b);
    assert k == [k[0], 0] + b;
    if LogicalKey(k) == name {
      assert name == b[..i] && b == name + [0] + b[i + 1..];
      assert k == [k[0], 0] + name + [0] + b[i + 1..];
    }
    if 0 !in name && [k[0], 0] + name + [0] <= k {
      var rest := k[|name| + 3..];
      assert k == [k[0], 0] + name + [0] + rest;
      assert b == name + [0] + rest;
      NulAfter(name, rest);
    }
  }

  /** The keys of sorted sets and bitmaps are among them. */
  lemma WrittenKeys(name: Bytes, m: Bytes, enc: Bytes, p: nat)
    requires name != [] && 0 !in name
    ensures LogicalKey(SortedSet.ValKey(name, m)) == name && LogicalKey(SortedSet.ScoreKey(name, enc, m)) == name
    ensures LogicalKey(Bitmap.PageKey(name, p)) == name
  {
    SortedSet.ScoreKeyRest(name, enc, m);
    assert [122, 0] + name + [0] <= SortedSet.ValKey(name, m);
    assert [122, 0] + name + [0] <= SortedSet.ScoreKey(name, enc, m);
    assert [98, 0] + name + [0] <= Bitmap.PageKey(name, p);
    LogicalKeyIff(SortedSet.ValKey(name, m), name);
    LogicalKeyIff(SortedSet.ScoreKey(name, enc, m), name);
    LogicalKeyIff(Bitmap.PageKey(name, p), name);
  }

  /** Row `i` is a live key of `name`. */
  ghost predicate LiveKey(rows: seq<Row>, i: nat, name: Bytes) {
    i < |rows| && rows[i].live && name != [] && KeyOf(rows[i].key, name)
  }

  /** Following the cursors over a store whose strings do not shadow one another, a client is told exactly the
      wanted names that have a live key. */
  method ScanStore(rows: seq<Row>, pattern: Bytes, count: nat) returns (all: set<Bytes>)
    requires Ascending(rows) && NeverTurnsBack(rows) && NoShadows(rows) && count > 0
    ensures forall i: nat, name :: LiveKey(rows, i, name) && Wanted(pattern, name) ==> name in all
    ensures forall name :: name in all ==> Wanted(pattern, name) && exists i: nat :: LiveKey(rows, i, name)
  {
    all := ScanAll(rows, pattern, count);
    forall i: nat, name | LiveKey(rows, i, name) && Wanted(pattern, name) ensures name in all {
      LogicalKeyIff(rows[i].key, name);
      assert Named(rows, 0, |rows|, i, name);
      assert ReportsAt(rows, 0, |rows|, pattern, all, name);
    }
    forall name | name in all ensures Wanted(pattern, name) && exists i: nat :: LiveKey(rows, i, name) {
      assert ReportsAt(rows, 0, |rows|, pattern, all, name);
      var i: nat :| Named(rows, 0, |rows|, i, name);
      LogicalKeyIff(rows[i].key, name);
      assert LiveKey(rows, i, name);
    }
  }

  /** One key of each kind: a bitmap, a hash, a list, a string, a set and a sorted set. */
  function EachKind(): seq<Row> {
    [Row([98, 0, 65, 0, 0, 0, 0, 0, 0, 0, 0, 0], true), Row([104, 0, 66, 0, 102], true), Row([108, 0, 67, 0, 1], true),
     Row([115, 0, 68], true), Row([116, 0, 69, 0, 109], true), Row([122, 0, 70, 0, 118, 0, 109], true)]
  }

  function KindName(i: nat): Bytes
    requires i < 6
  {
    [65 + i]
  }

  /** A scan of everything names all of them. */
  method ScanEachKind(count: nat) returns (all: set<Bytes>)
    requires count > 0
    ensures all == {[65], [66], [67], [68], [69], [70]}
  {
    var rows := EachKind();
    EachKindAscends(rows);
    EachKindPlain(rows);
    EachKindKeys(rows);
    all := ScanStore(rows, [STAR], count);
    forall i: nat | i < 6 ensures KindName(i) in all { StarWants(KindName(i)); }
    forall name | name in all ensures exists i: nat :: i < 6 && name == KindName(i) {
      var i: nat :| LiveKey(rows, i, name);
      OneName(rows[i].key, name, KindName(i));
    }
    SixNames(all);
  }

  lemma SixNames(all: set<Bytes>)
    requires forall i: nat :: i < 6 ==> KindName(i) in all
    requires forall name :: name in all ==> exists i: nat :: i < 6 && name == KindName(i)
    ensures all == {[65], [66], [67], [68], [69], [70]}
  {
    assert KindName(0) in all && KindName(1) in all && KindName(2) in all;
    assert KindName(3) in all && KindName(4) in all && KindName(5) in all;
  }

  lemma EachKindAscends(rows: seq<Row>)
    requires rows == EachKind()
    ensures Ascending(rows)
  {
    forall i, j | 0 <= i < j < |rows| ensures Lt(rows[i].key, rows[j].key) {
      assert rows[i].key[0] < rows[j].key[0];
    }
  }

  lemma EachKindPlain(rows: seq<Row>)
    requires rows == EachKind()
    ensures NeverTurnsBack(rows) && NoShadows(rows)
  {
    forall i: nat, j: nat | i < j < |rows| && Composite(rows[i].key) && Composite(rows[j].key)
      ensures Stem(rows[i].key) != Stem(rows[j].key)
    {
      assert Stem(rows[i].key)[0] == rows[i].key[0] < rows[j].key[0] == Stem(rows[j].key)[0];
    }
    forall i, j | 0 <= i < j < |rows| ensures !Shadows(rows[i].key, rows[j].key) {
      if rows[i].key[0] == STRING_TYPE { assert rows[i].key[2..] == [68]; }
    }
  }

  lemma EachKindKeys(rows: seq<Row>)
    requires rows == EachKind()
    ensures forall i: nat :: i < 6 ==> LiveKey(rows, i, KindName(i))
  {
    forall i: nat | i < 6 ensures LiveKey(rows, i, KindName(i)) {
      var k := rows[i].key;
      if i == 3 {
        assert k == [115, 0] + KindName(i);
      } else {
        assert [k[0], 0] + KindName(i) + [0] == k[..4];
      }
    }
  }

  lemma OneName(k: Key, name: Bytes, known: Bytes)
    requires name != [] && known != [] && KeyOf(k, name) && KeyOf(k, known)
    ensures name == known
  {
    LogicalKeyIff(k, name);
    LogicalKeyIff(k, known);
  }
}
