/** Tables and levels: what a level holds as one versioned map, and how a read finds it there. */
module Tables {
  import opened Store
  import opened ByteOrder
  import opened Entries
  import opened Compaction
  import S = SSTable
  import F = TableFile

  datatype Table = Table(entries: Run)

  type Level = seq<Table>

  ghost predicate TableOk(t: Table) {
    t.entries != [] && Sorted(t.entries)
  }

  ghost predicate TablesOk(ts: Level) {
    forall i :: 0 <= i < |ts| ==> TableOk(ts[i])
  }

  function MinKey(t: Table): Key {
    if t.entries == [] then [] else t.entries[0].cell.key
  }

  function MaxKey(t: Table): Key {
    if t.entries == [] then [] else t.entries[|t.entries| - 1].cell.key
  }

  predicate RangesOverlap(a: Table, b: Table) {
    Le(MinKey(a), MaxKey(b)) && Le(MinKey(b), MaxKey(a))
  }

  lemma KeyInRange(t: Table, e: Entry)
    requires TableOk(t) && e in t.entries
    ensures Le(MinKey(t), e.cell.key) && Le(e.cell.key, MaxKey(t))
  {
    var i :| 0 <= i < |t.entries| && t.entries[i] == e;
    if i > 0 { assert Before(t.entries[0].cell, e.cell); }
    if i < |t.entries| - 1 { assert Before(e.cell, t.entries[|t.entries| - 1].cell); }
  }

  /** Ranges are apart exactly if all keys of one table are in front of all keys of the other. */
  lemma OverlapIff(a: Table, b: Table)
    requires TableOk(a) && TableOk(b)
    ensures !RangesOverlap(a, b) <==>
              || (forall e, f :: e in a.entries && f in b.entries ==> Lt(e.cell.key, f.cell.key))
              || (forall e, f :: e in a.entries && f in b.entries ==> Lt(f.cell.key, e.cell.key))
  {
    ApartIff(a, b);
    ApartIff(b, a);
  }

  lemma ApartIff(a: Table, b: Table)
    requires TableOk(a) && TableOk(b)
    ensures !Le(MinKey(b), MaxKey(a)) <==>
              forall e, f :: e in a.entries && f in b.entries ==> Lt(e.cell.key, f.cell.key)
  {
    var x, y := a.entries[|a.entries| - 1], b.entries[0];
    assert x in a.entries && y in b.entries;
    LtTotal(x.cell.key, y.cell.key);
    if Lt(x.cell.key, y.cell.key) {
      LtAsym(x.cell.key, y.cell.key);
      forall e, f | e in a.entries && f in b.entries ensures Lt(e.cell.key, f.cell.key) {
        KeyInRange(a, e);
        KeyInRange(b, f);
        if e.cell.key != x.cell.key { LtTrans(e.cell.key, x.cell.key, y.cell.key); }
        if f.cell.key != y.cell.key { LtTrans(e.cell.key, y.cell.key, f.cell.key); }
      }
    }
  }

  /** Tables that share a key overlap. */
  lemma SharedKeyOverlaps(a: Table, b: Table, e: Entry, f: Entry)
    requires TableOk(a) && TableOk(b) && e in a.entries && f in b.entries && e.cell.key == f.cell.key
    ensures RangesOverlap(a, b)
  {
    KeyInRange(a, e);
    KeyInRange(b, f);
    LeTrans(MinKey(a), e.cell.key, MaxKey(b));
    LeTrans(MinKey(b), e.cell.key, MaxKey(a));
  }

  // ---------------------------------------------------------------- the contents of a level

  ghost predicate Held(ts: Level, i: int, e: Entry) {
    0 <= i < |ts| && e in ts[i].entries
  }

  ghost function EntriesOf(ts: Level): set<Entry> {
    set i, e | 0 <= i < |ts| && e in ts[i].entries :: e
  }

  lemma Where(ts: Level, e: Entry) returns (i: nat)
    requires e in EntriesOf(ts)
    ensures Held(ts, i, e)
  {
    i :| i < |ts| && e in ts[i].entries;
  }

  ghost predicate Unique(es: set<Entry>) {
    forall e, f :: e in es && f in es && e.cell == f.cell ==> e == f
  }

  ghost function MapOf(es: set<Entry>): (m: map<Cell, Payload>)
    requires Unique(es)
    ensures forall e :: e in es ==> e.cell in m && m[e.cell] == e.payload
    ensures forall c :: c in m ==> Entry(c, m[c]) in es
  {
    map e | e in es :: e.cell := e.payload
  }

  /** Of two tables that share a key the later one holds the newer versions. Level 0 is filled this
      way; on the deeper levels no two tables share a key at all. */
  ghost predicate OldestFirst(ts: Level) {
    forall i, j, e, f :: i < j && Held(ts, i, e) && Held(ts, j, f) && e.cell.key == f.cell.key ==>
      e.cell.version < f.cell.version
  }

  ghost predicate KeyDisjoint(ts: Level) {
    forall i, j, e, f :: i < j && Held(ts, i, e) && Held(ts, j, f) ==> e.cell.key != f.cell.key
  }

  /** A cell is in at most one table of a level. */
  lemma OneTable(ts: Level, i: int, j: int, e: Entry, f: Entry)
    requires TablesOk(ts) && OldestFirst(ts) && Held(ts, i, e) && Held(ts, j, f)
    ensures e.cell == f.cell ==> i == j && e == f
  {
    if i == j {
      assert TableOk(ts[i]);
      SortedDistinct(ts[i].entries);
      DistinctSingle(ts[i].entries);
    }
  }

  lemma LevelUnique(ts: Level)
    requires TablesOk(ts) && OldestFirst(ts)
    ensures Unique(EntriesOf(ts))
  {
    forall e, f | e in EntriesOf(ts) && f in EntriesOf(ts) && e.cell == f.cell ensures e == f {
      var i := Where(ts, e);
      var j := Where(ts, f);
      OneTable(ts, i, j, e, f);
    }
  }

  ghost predicate LevelOk(ts: Level) {
    TablesOk(ts) && OldestFirst(ts)
  }

  /** A level as one versioned map. */
  ghost function Content(ts: Level): map<Cell, Payload>
    requires LevelOk(ts)
  {
    LevelUnique(ts);
    MapOf(EntriesOf(ts))
  }

  lemma HeldInContent(ts: Level, i: nat, e: Entry)
    requires LevelOk(ts) && Held(ts, i, e)
    ensures e.cell in Content(ts) && Content(ts)[e.cell] == e.payload
  {
    LevelUnique(ts);
    assert e in EntriesOf(ts);
  }

  lemma ContentHeld(ts: Level, c: Cell) returns (i: nat)
    requires LevelOk(ts) && c in Content(ts)
    ensures Held(ts, i, Entry(c, Content(ts)[c]))
  {
    LevelUnique(ts);
    i := Where(ts, Entry(c, Content(ts)[c]));
  }

  // ---------------------------------------------------------------- finding a version

  /** The first version of `k` at or below `v` in storage order. */
  function Find(es: Run, k: Key, v: nat): Option<Payload> {
    if es == [] then None
    else if es[0].cell.key == k && es[0].cell.version <= v then Some(es[0].payload)
    else Find(es[1..], k, v)
  }

  lemma {:induction false} FindFirst(es: Run, k: Key, v: nat)
    ensures Find(es, k, v).None? ==> forall e :: e in es && e.cell.key == k ==> e.cell.version > v
    ensures Find(es, k, v).Some? ==>
              exists i :: 0 <= i < |es| && Found(es, k, v, i) && Find(es, k, v).value == es[i].payload
  {
    if es == [] {
    } else if es[0].cell.key == k && es[0].cell.version <= v {
      assert Found(es, k, v, 0);
    } else {
      FindFirst(es[1..], k, v);
      if Find(es[1..], k, v).Some? {
        var i :| 0 <= i < |es[1..]| && Found(es[1..], k, v, i) && Find(es, k, v).value == es[1..][i].payload;
        assert Found(es, k, v, i + 1);
      }
    }
  }

  /** `i` is the first place that matches. */
  ghost predicate Found(es: Run, k: Key, v: nat, i: nat)
    requires i < |es|
  {
    && es[i].cell.key == k && es[i].cell.version <= v
    && forall j :: 0 <= j < i && es[j].cell.key == k ==> es[j].cell.version > v
  }

  /** In a sorted run the first match is the newest. */
  lemma FoundIsNewest(es: Run, k: Key, v: nat, i: nat, e: Entry)
    requires Sorted(es) && i < |es| && Found(es, k, v, i) && e in es && e.cell.key == k && e.cell.version <= v
    ensures e.cell.version <= es[i].cell.version
  {
    var j :| 0 <= j < |es| && es[j] == e;
    if i < j {
      assert Before(es[i].cell, es[j].cell);
      LtIrreflexive(k);
    }
  }

  lemma FindIsLookup(es: Run, m: map<Cell, Payload>, k: Key, v: nat)
    requires Sorted(es) && (forall e :: e in es ==> e.cell in m && m[e.cell] == e.payload)
    requires forall c :: c in m && c.key == k ==> Entry(c, m[c]) in es
    ensures Find(es, k, v) == Lookup(m, k, v)
  {
    FindFirst(es, k, v);
    var n := Newest(m, k, v);
    if Find(es, k, v).Some? {
      var i :| 0 <= i < |es| && Found(es, k, v, i) && Find(es, k, v).value == es[i].payload;
      assert es[i] in es;
      assert n.Some?;
      var c := Cell(k, n.value);
      FoundIsNewest(es, k, v, i, Entry(c, m[c]));
      assert es[i].cell == c;
    }
  }

  /** Nothing of `k` at or below `v` in the tables from `n` on. */
  ghost predicate NoneFrom(ts: Level, n: int, k: Key, v: nat) {
    forall i, e :: n <= i && Held(ts, i, e) && e.cell.key == k ==> e.cell.version > v
  }

  lemma HitInTable(ts: Level, n: nat, k: Key, v: nat)
    requires LevelOk(ts) && n < |ts| && NoneFrom(ts, n + 1, k, v) && Find(ts[n].entries, k, v).Some?
    ensures Find(ts[n].entries, k, v) == Lookup(Content(ts), k, v)
  {
    var es := ts[n].entries;
    assert TableOk(ts[n]);
    FindFirst(es, k, v);
    var i :| 0 <= i < |es| && Found(es, k, v, i) && Find(es, k, v).value == es[i].payload;
    var m := Content(ts);
    assert Held(ts, n, es[i]);
    HeldInContent(ts, n, es[i]);
    var c := Cell(k, Newest(m, k, v).value);
    var j := ContentHeld(ts, c);
    if j == n { FoundIsNewest(es, k, v, i, Entry(c, m[c])); }
    assert es[i].cell == c;
  }

  lemma MissedAll(ts: Level, k: Key, v: nat)
    requires LevelOk(ts) && NoneFrom(ts, 0, k, v)
    ensures Lookup(Content(ts), k, v).None?
  {
    forall w: nat | Cell(k, w) in Content(ts) ensures w > v {
      var j := ContentHeld(ts, Cell(k, w));
    }
  }

  // ---------------------------------------------------------------- the read loop

  /** What a lookup in the file of a table returns. */
  function TableHit(t: Table, k: Key, v: nat): Option<Payload>
    requires Sorted(t.entries)
  {
    var e := F.TableGet(t.entries, k, Some(v));
    if e.None? then None else Some(e.value.payload)
  }

  ghost predicate Crosses(t: Table, k: Key, v: nat)
    requires Sorted(t.entries)
  {
    F.TableCrosses(t.entries, k, Some(v))
  }

  /** The lookup in the file finds the version it should, unless its versions cross a restart point. */
  lemma TableHitIs(t: Table, k: Key, v: nat)
    requires Sorted(t.entries) && !Crosses(t, k, v)
    ensures TableHit(t, k, v) == Find(t.entries, k, v)
  {
    F.LookupIff(t.entries, k, Some(v));
    PickIsFind(t.entries, k, v);
  }

  /** The newest version that a bound lets through is the one a search finds. */
  lemma PickIsFind(es: Run, k: Key, v: nat)
    requires Sorted(es)
    ensures var e := S.Pick(es, k, Some(v)); Find(es, k, v) == if e.None? then None else Some(e.value.payload)
  {
    var e := S.Pick(es, k, Some(v));
    S.PickNone(es, k, Some(v));
    FindFirst(es, k, v);
    if e.Some? {
      S.PickIn(es, k, Some(v));
      var i :| 0 <= i < |es| && Found(es, k, v, i) && Find(es, k, v).value == es[i].payload;
      S.PickNewest(es, k, Some(v), es[i]);
      FoundIsNewest(es, k, v, i, e.value);
      SortedDistinct(es);
      DistinctSingle(es);
      assert es[i] in es && es[i].cell == e.value.cell;
    }
  }

  /** The newest table first, and the first one that has a version. */
  function LevelHit(ts: Level, k: Key, v: nat): Option<Payload>
    requires TablesOk(ts)
  {
    if ts == [] then None
    else
      assert TableOk(ts[|ts| - 1]);
      var hit := TableHit(ts[|ts| - 1], k, v);
      if hit.Some? then hit else LevelHit(ts[..|ts| - 1], k, v)
  }

  ghost predicate NoneCrosses(ts: Level, k: Key, v: nat)
    requires TablesOk(ts)
  {
    forall i :: 0 <= i < |ts| ==> TableOk(ts[i]) && !Crosses(ts[i], k, v)
  }

  /** Without the last table the level is still in order, and holds the same but for that table. */
  lemma FrontOk(ts: Level)
    requires LevelOk(ts) && ts != []
    ensures LevelOk(ts[..|ts| - 1])
  {
    var front := ts[..|ts| - 1];
    forall i, e | Held(front, i, e) ensures Held(ts, i, e) {}
  }

  lemma LastTable(ts: Level, k: Key, v: nat)
    requires LevelOk(ts) && ts != [] && LevelOk(ts[..|ts| - 1])
    ensures var hit := Find(ts[|ts| - 1].entries, k, v);
            Lookup(Content(ts), k, v) == if hit.Some? then hit else Lookup(Content(ts[..|ts| - 1]), k, v)
  {
    var front, n := ts[..|ts| - 1], |ts| - 1;
    if Find(ts[n].entries, k, v).Some? {
      HitInTable(ts, n, k, v);
    } else {
      FindFirst(ts[n].entries, k, v);
      forall w: nat | w <= v ensures Same(Content(ts), Content(front), Cell(k, w)) { MissInLast(ts, k, v, w); }
      LookupAgrees(Content(ts), Content(front), k, v);
    }
  }

  lemma MissInLast(ts: Level, k: Key, v: nat, w: nat)
    requires LevelOk(ts) && ts != [] && LevelOk(ts[..|ts| - 1]) && w <= v
    requires forall e :: e in ts[|ts| - 1].entries && e.cell.key == k ==> e.cell.version > v
    ensures Same(Content(ts), Content(ts[..|ts| - 1]), Cell(k, w))
  {
    var front, c := ts[..|ts| - 1], Cell(k, w);
    if c in Content(ts) {
      var i := ContentHeld(ts, c);
      assert Held(front, i, Entry(c, Content(ts)[c]));
      HeldInContent(front, i, Entry(c, Content(ts)[c]));
    }
    if c in Content(front) {
      var i := ContentHeld(front, c);
      assert Held(ts, i, Entry(c, Content(front)[c]));
      HeldInContent(ts, i, Entry(c, Content(front)[c]));
    }
  }

  /** The loop finds what the level holds, unless versions of the key cross a restart point. */
  lemma {:induction false} LevelHitIs(ts: Level, k: Key, v: nat)
    requires LevelOk(ts) && NoneCrosses(ts, k, v)
    ensures LevelHit(ts, k, v) == Lookup(Content(ts), k, v)
  {
    if ts == [] {
      MissedAll(ts, k, v);
    } else {
      assert TableOk(ts[|ts| - 1]);
      TableHitIs(ts[|ts| - 1], k, v);
      FrontOk(ts);
      LastTable(ts, k, v);
      LevelHitIs(ts[..|ts| - 1], k, v);
    }
  }

  /** The read loop of one level, newest table first. */
  method SearchLevel(ts: Level, k: Key, v: nat) returns (hit: Option<Payload>)
    requires TablesOk(ts)
    ensures hit == LevelHit(ts, k, v)
  {
    var i := |ts|;
    assert ts[..|ts|] == ts;
    while i > 0
      invariant 0 <= i <= |ts| && LevelHit(ts[..i], k, v) == LevelHit(ts, k, v)
    {
      assert ts[..i][..i - 1] == ts[..i - 1];
      i := i - 1;
      assert TableOk(ts[i]);
      hit := TableHit(ts[i], k, v);
      if hit.Some? { return hit; }
    }
    return None;
  }
}
