/** Prefix scans that leave out tables whose prefix filter denies the prefix. */
module PrefixScan {
  import opened Store
  import opened ByteOrder
  import opened Entries
  import opened MergeIterators
  import opened Bloom
  import opened SSTable
  import opened TableFile
  import opened TableCursor

  // ---------------------------------------------------------------- the prefix a filter knows

  /** What to ask the filter for; none if the prefix does not fix what the filter knows. */
  function FilterKey(prefix: Key): Option<Key> {
    var p := ExtractPrefix(prefix);
    if |p| < |prefix| && prefix[|p|] == 0 then Some(p) else None
  }

  lemma {:induction false} NulExtends(a: Bytes, b: Bytes)
    requires a <= b && IndexNul(a) < |a|
    ensures IndexNul(b) == IndexNul(a) && a[IndexNul(a)] == 0
  {
    if a[0] != 0 {
      assert a[1..] <= b[1..];
      NulExtends(a[1..], b[1..]);
    }
  }

  /** The filter can be asked for exactly the prefixes with two NULs. */
  lemma FilterKeyIff(prefix: Key)
    ensures FilterKey(prefix).Some? <==> exists i, j :: 0 <= i < j < |prefix| && prefix[i] == 0 && prefix[j] == 0
  {
    var i := IndexNul(prefix);
    NoNulBefore(prefix);
    if i < |prefix| {
      NoNulBefore(prefix[i + 1..]);
      ExtractAt(prefix, i, IndexNul(prefix[i + 1..]));
    }
  }

  lemma {:induction false} NoNulBefore(b: Bytes)
    ensures forall i :: 0 <= i < IndexNul(b) ==> b[i] != 0
  {
    if b != [] && b[0] != 0 { NoNulBefore(b[1..]); }
  }

  /** If the filter can be asked, every key with the prefix was entered under the same prefix. */
  lemma PrefixFixed(prefix: Key, k: Key)
    requires prefix <= k && FilterKey(prefix).Some?
    ensures ExtractPrefix(k) == FilterKey(prefix).value
  {
    var i, j := PrefixEnds(prefix);
    NulExtends(prefix, k);
    NulExtends(prefix[i + 1..], k[i + 1..]);
    ExtractAt(prefix, i, j);
    ExtractAt(k, i, j);
  }

  /** The two NULs of a prefix that the filter can be asked for. */
  lemma PrefixEnds(prefix: Key) returns (i: nat, j: nat)
    requires FilterKey(prefix).Some?
    ensures i == IndexNul(prefix) < |prefix| && j == IndexNul(prefix[i + 1..]) < |prefix| - (i + 1)
  {
    i := IndexNul(prefix);
    j := IndexNul(prefix[i + 1..]);
  }

  lemma ExtractAt(k: Key, i: nat, j: nat)
    requires i == IndexNul(k) < |k| && j == IndexNul(k[i + 1..])
    ensures ExtractPrefix(k) == k[..i + 1 + j]
  {}

  // ---------------------------------------------------------------- leaving tables out

  ghost predicate Has(prefix: Key, e: Entry) {
    prefix <= e.cell.key
  }

  ghost predicate HasAny(prefix: Key, run: Run) {
    exists e :: e in run && Has(prefix, e)
  }

  method MayHold(ghost run: Run, filter: Filter, h: Bytes -> nat, prefix: Key) returns (may: bool)
    requires filter.Valid(h) && Knows(filter, run)
    ensures HasAny(prefix, run) ==> may
  {
    var check := FilterKey(prefix);
    if check.None? { return true; }
    may := filter.MayContain(h, check.value);
    if HasAny(prefix, run) {
      ghost var e :| e in run && Has(prefix, e);
      PrefixFixed(prefix, e.cell.key);
    }
  }

  /** `kept` is part of the sources, and has everything with the prefix. */
  ghost predicate Sifted(sources: seq<Run>, kept: seq<Run>, prefix: Key) {
    && (forall e :: From(kept, e) ==> From(sources, e))
    && forall e :: From(sources, e) && Has(prefix, e) ==> From(kept, e)
  }

  /** A tail from the prefix on has everything with the prefix. */
  lemma TailHas(es: Run, prefix: Key, tail: Run, e: Entry)
    requires IsTail(es, prefix, tail)
    ensures e in tail ==> e in es
    ensures e in es && Has(prefix, e) ==> e in tail
  {
    if e in es && Has(prefix, e) {
      var n := |es| - |tail|;
      var i :| 0 <= i < |es| && es[i] == e;
      PrefixNotGreater(prefix, e.cell.key);
      assert i >= n && tail[i - n] == e;
    }
  }

  lemma FromMore(sources: seq<Run>, more: Run, e: Entry)
    ensures From(sources + [more], e) <==> From(sources, e) || e in more
  {
    var all := sources + [more];
    if From(sources, e) {
      var i :| 0 <= i < |sources| && e in sources[i];
      assert e in all[i];
    }
    if e in more { assert e in all[|sources|]; }
  }

  lemma SiftMore(sources: seq<Run>, kept: seq<Run>, prefix: Key, run: Run, kept': seq<Run>)
    requires Sifted(sources, kept, prefix)
    requires (kept' == kept && !HasAny(prefix, run)) || exists tail ::
        IsTail(run, prefix, tail) && kept' == kept + [tail]
    ensures Sifted(sources + [run], kept', prefix)
  {
    forall e ensures From(kept', e) ==> From(sources + [run], e)
      ensures From(sources + [run], e) && Has(prefix, e) ==> From(kept', e)
    {
      FromMore(sources, run, e);
      if kept' != kept || HasAny(prefix, run) {
        var tail :| IsTail(run, prefix, tail) && kept' == kept + [tail];
        FromMore(kept, tail, e);
        TailHas(run, prefix, tail, e);
      }
    }
  }

  /** The tables that may hold keys with the prefix, each read from the prefix on. */
  method Candidates(mems: seq<Run>, files: seq<seq<Block>>, filters: seq<Filter>, h: Bytes -> nat, prefix: Key,
      ghost runs: seq<Run>)
    returns (kept: seq<Run>)
    requires |filters| == |files| == |runs| && forall i :: 0 <= i < |files| ==> FileOf(files[i], runs[i])
    requires forall i :: 0 <= i < |runs| ==> filters[i].Valid(h) && Knows(filters[i], runs[i])
    requires forall i :: 0 <= i < |mems| ==> KeysInOrder(mems[i])
    ensures Sifted(mems + runs, kept, prefix) && forall i :: 0 <= i < |kept| ==> KeysInOrder(kept[i])
  {
    kept := mems;
    assert mems + runs[..0] == mems;
    for i := 0 to |files|
      invariant Sifted(mems + runs[..i], kept, prefix) && forall j :: 0 <= j < |kept| ==> KeysInOrder(kept[j])
    {
      var may := MayHold(runs[i], filters[i], h, prefix);
      ghost var before := kept;
      assert mems + runs[..i + 1] == mems + runs[..i] + [runs[i]];
      if may {
        var tail := OpenAt(files[i], prefix, runs[i]);
        kept := kept + [tail];
      }
      SiftMore(mems + runs[..i], before, prefix, runs[i], kept);
    }
    assert runs[..|files|] == runs;
  }

  method OpenAt(blocks: seq<Block>, prefix: Key, ghost run: Run) returns (tail: Run)
    requires FileOf(blocks, run)
    ensures IsTail(run, prefix, tail) && KeysInOrder(tail)
  {
    CutKeeps(run);
    tail := ReadFrom(blocks, prefix, Cut(run));
    forall i, j | 0 <= i < j < |tail| ensures Le(tail[i].cell.key, tail[j].cell.key) {
      var n := |run| - |tail|;
      KeysAscend(run, n + i, n + j);
    }
  }

  // ---------------------------------------------------------------- the scan

  /** `e` is the newest entry of its key among the sources. */
  ghost predicate NewestOf(sources: seq<Run>, e: Entry) {
    && (exists i :: 0 <= i < |sources| && e in sources[i])
    && forall i, d :: 0 <= i < |sources| && d in sources[i] && d.cell.key == e.cell.key ==>
         d.cell.version <= e.cell.version
  }

  /** Leaving out what does not have the prefix does not change which entries of it are newest. */
  lemma SameNewest(sources: seq<Run>, kept: seq<Run>, prefix: Key, e: Entry)
    requires Sifted(sources, kept, prefix) && Has(prefix, e)
    ensures NewestOf(kept, e) <==> NewestOf(sources, e)
  {
    assert From(kept, e) <==> From(sources, e);
    forall d: Entry | d.cell.key == e.cell.key ensures From(kept, d) <==> From(sources, d) { assert Has(prefix, d); }
    NewestIs(kept, e);
    NewestIs(sources, e);
  }

  lemma NewestIs(sources: seq<Run>, e: Entry)
    ensures NewestOf(sources, e) <==>
              From(sources, e) && forall d :: From(sources, d) && d.cell.key == e.cell.key ==>
                  d.cell.version <= e.cell.version
  {
    if From(sources, e) && forall d :: From(sources, d) && d.cell.key == e.cell.key ==>
        d.cell.version <= e.cell.version {
      forall i, d | 0 <= i < |sources| && d in sources[i] && d.cell.key == e.cell.key
        ensures d.cell.version <= e.cell.version {
        assert From(sources, d);
      }
    }
  }

  /** No version is stored twice with different payloads. */
  ghost predicate Consistent(sources: seq<Run>) {
    forall e, f :: From(sources, e) && From(sources, f) && e.cell == f.cell ==> e == f
  }

  datatype Part = PFrom | PCovered

  ghost predicate MergedPart(p: Part, sources: seq<Run>, rows: Run) {
    match p
    case PFrom => forall e :: e in rows ==> From(sources, e)
    case PCovered => forall f :: From(sources, f) ==> Covered(rows, f)
  }

  /** `rows` is what merging the sources gives. */
  ghost predicate Merged(sources: seq<Run>, rows: Run) {
    KeysIncrease(rows) && forall p: Part :: MergedPart(p, sources, rows)
  }

  lemma MergedFrom(sources: seq<Run>, rows: Run)
    requires KeysIncrease(rows) && (forall e :: e in rows ==> From(sources, e))
        && (forall f :: From(sources, f) ==> Covered(rows, f))
    ensures Merged(sources, rows)
  {
    forall p: Part ensures MergedPart(p, sources, rows) { match p { case _ => } }
  }

  lemma CoveringRow(sources: seq<Run>, rows: Run, d: Entry) returns (f: Entry)
    requires Merged(sources, rows) && From(sources, d)
    ensures f in rows && f.cell.key == d.cell.key && d.cell.version <= f.cell.version
  {
    assert MergedPart(PCovered, sources, rows);
    f :| f in rows && f.cell.key == d.cell.key && d.cell.version <= f.cell.version;
  }

  lemma RowFrom(sources: seq<Run>, rows: Run, e: Entry)
    requires Merged(sources, rows) && e in rows
    ensures From(sources, e)
  {
    assert MergedPart(PFrom, sources, rows);
  }

  lemma RowIsNewest(sources: seq<Run>, rows: Run, e: Entry)
    requires Merged(sources, rows) && e in rows
    ensures NewestOf(sources, e)
  {
    RowFrom(sources, rows, e);
    forall i, d | 0 <= i < |sources| && d in sources[i] && d.cell.key == e.cell.key
      ensures d.cell.version <= e.cell.version {
      assert From(sources, d);
      var f := CoveringRow(sources, rows, d);
      OneRow(rows, e, f);
    }
  }

  lemma NewestIsRow(sources: seq<Run>, rows: Run, e: Entry)
    requires Merged(sources, rows) && Consistent(sources) && NewestOf(sources, e)
    ensures e in rows
  {
    assert From(sources, e);
    var f := CoveringRow(sources, rows, e);
    RowFrom(sources, rows, f);
    var i :| 0 <= i < |sources| && f in sources[i];
  }

  /** The rows are the newest entries of the sources. */
  lemma RowsNewest(sources: seq<Run>, rows: Run, e: Entry)
    requires Merged(sources, rows) && Consistent(sources)
    ensures e in rows <==> NewestOf(sources, e)
  {
    if e in rows { RowIsNewest(sources, rows, e); }
    if NewestOf(sources, e) { NewestIsRow(sources, rows, e); }
  }

  lemma OneRow(rows: Run, e: Entry, f: Entry)
    requires KeysIncrease(rows) && e in rows && f in rows && e.cell.key == f.cell.key
    ensures e == f
  {
    var i :| 0 <= i < |rows| && rows[i] == e;
    var j :| 0 <= j < |rows| && rows[j] == f;
    LtIrreflexive(e.cell.key);
  }

  /** The answer of a scan: the live keys with the prefix and what they hold. */
  ghost predicate Answers(sources: seq<Run>, prefix: Key, now: int, result: map<Key, Payload>) {
    && (forall k :: k in result ==> AnswersKey(sources, prefix, now, k, result[k]))
    && forall e :: NewestOf(sources, e) && Has(prefix, e) && !Dead(e.payload, now) ==> e.cell.key in result
  }

  ghost predicate AnswersKey(sources: seq<Run>, prefix: Key, now: int, k: Key, p: Payload) {
    exists e :: NewestOf(sources, e) && Has(prefix, e) && !Dead(e.payload, now) && e.cell.key == k && e.payload == p
  }

  /** What the scan has collected from the rows before `i`. */
  ghost predicate Collected(rows: Run, prefix: Key, now: int, i: nat, result: map<Key, Payload>) {
    && i <= |rows|
    && (forall k :: k in result ==>
         exists j :: 0 <= j < i && Taken(rows, prefix, now, j, k) && rows[j].payload == result[k])
    && forall j :: 0 <= j < i && Has(prefix, rows[j]) && !Dead(rows[j].payload, now) ==> rows[j].cell.key in result
  }

  ghost predicate Taken(rows: Run, prefix: Key, now: int, j: int, k: Key) {
    0 <= j < |rows| && Has(prefix, rows[j]) && !Dead(rows[j].payload, now) && rows[j].cell.key == k
  }

  lemma CollectRow(rows: Run, prefix: Key, now: int, i: nat, result: map<Key, Payload>, result': map<Key, Payload>)
    requires KeysIncrease(rows) && Collected(rows, prefix, now, i, result) && i < |rows|
    requires result' == if Has(prefix, rows[i]) && !Dead(rows[i].payload, now)
                        then result[rows[i].cell.key := rows[i].payload] else result
    ensures Collected(rows, prefix, now, i + 1, result')
  {
    forall k | k in result'
      ensures exists j :: 0 <= j < i + 1 && Taken(rows, prefix, now, j, k) && rows[j].payload == result'[k] {
      if k in result && (k != rows[i].cell.key || result' == result) {
        var j :| 0 <= j < i && Taken(rows, prefix, now, j, k) && rows[j].payload == result[k];
        assert Taken(rows, prefix, now, j, k);
      } else {
        assert Taken(rows, prefix, now, i, k);
      }
    }
  }

  /** The seek: rows with smaller keys do not have the prefix. */
  method SkipBelow(rows: Run, prefix: Key, now: int) returns (i: nat)
    requires KeysIncrease(rows)
    ensures Collected(rows, prefix, now, i, map[]) && (i < |rows| ==> !Lt(rows[i].cell.key, prefix))
  {
    i := 0;
    while i < |rows| && Lt(rows[i].cell.key, prefix)
      invariant i <= |rows| && Collected(rows, prefix, now, i, map[])
    {
      if Has(prefix, rows[i]) { PrefixNotGreater(prefix, rows[i].cell.key); }
      CollectRow(rows, prefix, now, i, map[], map[]);
      i := i + 1;
    }
  }

  /** Behind the keys with the prefix there are no more of them. */
  lemma PastPrefix(rows: Run, prefix: Key, i: nat, j: nat)
    requires KeysIncrease(rows) && i <= j < |rows| && !Lt(rows[i].cell.key, prefix) && !Has(prefix, rows[i])
    ensures !Has(prefix, rows[j])
  {
    if i < j && Has(prefix, rows[j]) {
      LtAsym(rows[i].cell.key, rows[j].cell.key);
      PrefixBetween(prefix, rows[i].cell.key, rows[j].cell.key);
    }
  }

  /** A prefix scan over the tables that the filter lets through answers for all of them. */
  method ScanPrefix(mems: seq<Run>, files: seq<seq<Block>>, filters: seq<Filter>, h: Bytes -> nat, prefix: Key,
      now: int, ghost runs: seq<Run>)
    returns (result: map<Key, Payload>)
    requires |filters| == |files| == |runs| && forall i :: 0 <= i < |files| ==> FileOf(files[i], runs[i])
    requires forall i :: 0 <= i < |runs| ==> filters[i].Valid(h) && Knows(filters[i], runs[i])
    requires Consistent(mems + runs) && forall i :: 0 <= i < |mems| ==> KeysInOrder(mems[i])
    ensures Answers(mems + runs, prefix, now, result)
    ensures forall k :: k in result ==> prefix <= k
    ensures forall e :: NewestOf(mems + runs, e) && prefix <= e.cell.key ==>
              (e.cell.key in result <==>
                 !e.payload.deleted && (e.payload.expiresAt <= 0 || now < e.payload.expiresAt))
  {
    var kept := Candidates(mems, files, filters, h, prefix, runs);
    var rows := MergeKeys(kept);
    MergedFrom(kept, rows);
    ghost var i: nat;
    result, i := CollectPrefix(rows, prefix, now);
    ScanDone(mems + runs, kept, rows, prefix, now, i, result);
    AnswersMeans(mems + runs, prefix, now, result);
  }

  lemma AnswersMeans(sources: seq<Run>, prefix: Key, now: int, result: map<Key, Payload>)
    requires Consistent(sources) && Answers(sources, prefix, now, result)
    ensures forall k :: k in result ==> prefix <= k
    ensures forall e :: NewestOf(sources, e) && prefix <= e.cell.key ==>
              (e.cell.key in result <==>
                 !e.payload.deleted && (e.payload.expiresAt <= 0 || now < e.payload.expiresAt))
  {
    forall k | k in result ensures prefix <= k { assert AnswersKey(sources, prefix, now, k, result[k]); }
    forall e | NewestOf(sources, e) && prefix <= e.cell.key && e.cell.key in result ensures !Dead(e.payload, now) {
      assert AnswersKey(sources, prefix, now, e.cell.key, result[e.cell.key]);
    }
    forall e | NewestOf(sources, e) && prefix <= e.cell.key && !Dead(e.payload, now) ensures e.cell.key in result {
      assert Has(prefix, e);
    }
  }

  /** The loop over the merged rows, from the seek to the first key without the prefix. */
  method CollectPrefix(rows: Run, prefix: Key, now: int) returns (result: map<Key, Payload>, ghost end: nat)
    requires KeysIncrease(rows)
    ensures Collected(rows, prefix, now, end, result) && forall j :: end <= j < |rows| ==> !Has(prefix, rows[j])
  {
    var i := SkipBelow(rows, prefix, now);
    result := map[];
    while i < |rows|
      invariant Collected(rows, prefix, now, i, result) && (i < |rows| ==> !Lt(rows[i].cell.key, prefix))
    {
      if !(prefix <= rows[i].cell.key) {
        forall j | i <= j < |rows| ensures !Has(prefix, rows[j]) { PastPrefix(rows, prefix, i, j); }
        return result, i;
      }
      result := TakeRow(rows, prefix, now, i, result);
      if i + 1 < |rows| { StillAbove(rows, prefix, i); }
      i := i + 1;
    }
    return result, i;
  }

  method TakeRow(rows: Run, prefix: Key, now: int, i: nat, result: map<Key, Payload>) returns (more: map<Key, Payload>)
    requires KeysIncrease(rows) && Collected(rows, prefix, now, i, result) && i < |rows| && Has(prefix, rows[i])
    ensures Collected(rows, prefix, now, i + 1, more)
  {
    more := result;
    if !Dead(rows[i].payload, now) { more := result[rows[i].cell.key := rows[i].payload]; }
    CollectRow(rows, prefix, now, i, result, more);
  }

  lemma StillAbove(rows: Run, prefix: Key, i: nat)
    requires KeysIncrease(rows) && i + 1 < |rows| && !Lt(rows[i].cell.key, prefix)
    ensures !Lt(rows[i + 1].cell.key, prefix)
  {
    LtAsym(rows[i].cell.key, rows[i + 1].cell.key);
    NotLtTrans(rows[i + 1].cell.key, rows[i].cell.key, prefix);
  }

  lemma SubConsistent(sources: seq<Run>, kept: seq<Run>, prefix: Key)
    requires Consistent(sources) && Sifted(sources, kept, prefix)
    ensures Consistent(kept)
  {}

  lemma ScanDone(sources: seq<Run>, kept: seq<Run>, rows: Run, prefix: Key, now: int, i: nat, result: map<Key, Payload>)
    requires Consistent(sources) && Sifted(sources, kept, prefix)
    requires Merged(kept, rows)
    requires Collected(rows, prefix, now, i, result) && forall j :: i <= j < |rows| ==> !Has(prefix, rows[j])
    ensures Answers(sources, prefix, now, result)
  {
    SubConsistent(sources, kept, prefix);
    forall k | k in result ensures AnswersKey(sources, prefix, now, k, result[k]) {
      var j :| 0 <= j < i && Taken(rows, prefix, now, j, k) && rows[j].payload == result[k];
      RowsNewest(kept, rows, rows[j]);
      SameNewest(sources, kept, prefix, rows[j]);
    }
    forall e | NewestOf(sources, e) && Has(prefix, e) && !Dead(e.payload, now) ensures e.cell.key in result {
      SameNewest(sources, kept, prefix, e);
      RowsNewest(kept, rows, e);
      var j :| 0 <= j < |rows| && rows[j] == e;
    }
  }
}
