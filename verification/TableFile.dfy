/** A table file as a whole: cutting a run into blocks, the index over their first keys, and the
    lookup that goes through filter, index and block. */
module TableFile {
  import opened Store
  import opened ByteOrder
  import opened Entries
  import opened Encoding
  import opened SSTable
  import opened Bloom
  import C = Compaction

  const BLOCK_BYTES := 4096

  /** A block with its index key. */
  datatype Block = Block(first: Key, bytes: Bytes)

  /** `b` is the block of `run`. */
  ghost predicate Holds(b: Block, run: Run) {
    run != [] && Stored(run) && b.first == run[0].cell.key
    && exists offsets :: Restarts(run, offsets) && b.bytes == EncodeBlock(EncodeAll(run), offsets)
  }

  ghost predicate AllHold(blocks: seq<Block>, runs: seq<Run>) {
    |blocks| == |runs| && forall i :: 0 <= i < |blocks| ==> Holds(blocks[i], runs[i])
  }

  // ---------------------------------------------------------------- where blocks are cut

  function Size(es: Run): nat {
    if es == [] then 0 else Size(es[..|es| - 1]) + Length(es[|es| - 1])
  }

  /** The runs of the blocks: a new one starts where the last one has the target size and the key
      changes. */
  function Cut(es: Run): seq<Run> {
    if es == [] then []
    else
      var front, e := Cut(es[..|es| - 1]), es[|es| - 1];
      if front == [] then [[e]] else Cons(front[..|front| - 1], front[|front| - 1], e)
  }

  function Cons(front: seq<Run>, b: Run, e: Entry): seq<Run> {
    if b != [] && (Size(b) < BLOCK_BYTES || e.cell.key == b[|b| - 1].cell.key)
    then front + [b + [e]] else front + [b, [e]]
  }

  /** A block but the last has at least 4096 bytes, and without its last key it has fewer. */
  ghost predicate CutAt(b: Run, last: bool) {
    && (!last ==> Size(b) >= 4096)
    && forall i :: 0 < i < |b| && Size(b[..i]) >= 4096 ==> b[i].cell.key == b[i - 1].cell.key
  }

  lemma {:induction false} CutBySize(es: Run)
    ensures forall i :: 0 <= i < |Cut(es)| ==> Cut(es)[i] != [] && CutAt(Cut(es)[i], i == |Cut(es)| - 1)
  {
    if es != [] {
      var front, e := Cut(es[..|es| - 1]), es[|es| - 1];
      CutBySize(es[..|es| - 1]);
      if front == [] {
        assert Cut(es) == [[e]];
      } else {
        ConsBySize(front, e);
      }
    }
  }

  lemma ConsBySize(runs: seq<Run>, e: Entry)
    requires runs != [] && forall i :: 0 <= i < |runs| ==> runs[i] != [] && CutAt(runs[i], i == |runs| - 1)
    ensures var more := Cons(runs[..|runs| - 1], runs[|runs| - 1], e);
            forall i :: 0 <= i < |more| ==> more[i] != [] && CutAt(more[i], i == |more| - 1)
  {
    var n := |runs| - 1;
    var more, b := Cons(runs[..n], runs[n], e), runs[n];
    forall i | 0 <= i < |more| ensures more[i] != [] && CutAt(more[i], i == |more| - 1) {
      if i < n {
        assert more[i] == runs[i];
      } else if |more| == |runs| {
        assert more[n] == b + [e];
        forall j | 0 < j < |b| ensures (b + [e])[..j] == b[..j] {}
        assert (b + [e])[..|b|] == b;
      } else if i == n {
        assert more[n] == b;
      } else {
        assert more[i] == [e];
      }
    }
  }

  lemma {:induction false} SizeIs(es: Run)
    requires AllFit(es)
    ensures |EncodeAll(es)| == Size(es)
  {
    if es != [] {
      SizeIs(es[..|es| - 1]);
      RecordNotEmpty(es[|es| - 1]);
    }
  }

  /** Blocks of a sorted run: nothing is lost, no block is empty, and no key is in two of them. */
  ghost predicate CutOk(es: Run, runs: seq<Run>) {
    && C.Flatten(runs) == es && C.NoKeySplit(runs)
    && forall i :: 0 <= i < |runs| ==> runs[i] != [] && Sorted(runs[i])
  }

  lemma {:induction false} CutKeeps(es: Run)
    requires Sorted(es)
    ensures CutOk(es, Cut(es))
  {
    if es != [] {
      var front, e := es[..|es| - 1], es[|es| - 1];
      CutKeeps(front);
      assert es == front + [e];
      var runs := Cut(front);
      if runs == [] {
        assert front == C.Flatten(runs) == [];
        assert C.Flatten([[e]]) == C.Flatten([[e]][..0]) + [e];
        assert [[e]][..0] == [];
      } else {
        ConsKeeps(front, runs, e);
      }
    }
  }

  lemma ConsKeeps(es: Run, runs: seq<Run>, e: Entry)
    requires Sorted(es + [e]) && CutOk(es, runs) && runs != []
    ensures CutOk(es + [e], Cons(runs[..|runs| - 1], runs[|runs| - 1], e))
  {
    var front, b := runs[..|runs| - 1], runs[|runs| - 1];
    assert runs == front + [b];
    C.FlattenSnoc(front, b);
    FrontApart(runs);
    LastKey(es, C.Flatten(front), b, e);
    if Size(b) < BLOCK_BYTES || e.cell.key == b[|b| - 1].cell.key {
      ConsGrows(es, runs, e);
    } else {
      assert front + [b, [e]] == runs + [[e]];
      ConsCuts(es, runs, e);
    }
  }

  lemma ConsGrows(es: Run, runs: seq<Run>, e: Entry)
    requires Sorted(es + [e]) && CutOk(es, runs) && runs != []
    requires forall d :: d in C.Flatten(runs[..|runs| - 1]) ==> d.cell.key != e.cell.key
    ensures CutOk(es + [e], runs[..|runs| - 1] + [runs[|runs| - 1] + [e]])
  {
    var front, b := runs[..|runs| - 1], runs[|runs| - 1];
    assert runs == front + [b];
    C.FlattenSnoc(front, b);
    C.FlattenSnoc(front, b + [e]);
    assert C.Flatten(front) + (b + [e]) == es + [e];
    GrownSplit(runs, e);
    GrownSorted(es, C.Flatten(front), b, e);
  }

  lemma ConsCuts(es: Run, runs: seq<Run>, e: Entry)
    requires CutOk(es, runs) && forall d :: d in es ==> d.cell.key != e.cell.key
    ensures CutOk(es + [e], runs + [[e]])
  {
    C.FlattenSnoc(runs, [e]);
    FlattenApart(runs, [e]);
    C.SplitSnoc(runs, [e]);
  }

  lemma FrontApart(runs: seq<Run>)
    requires runs != [] && C.NoKeySplit(runs)
    ensures C.KeysApart(C.Flatten(runs[..|runs| - 1]), runs[|runs| - 1])
  {
    var front, b := runs[..|runs| - 1], runs[|runs| - 1];
    forall d, f | d in C.Flatten(front) && f in b ensures d.cell.key != f.cell.key {
      C.FlattenMembers(front, d);
      var i :| C.InTable(front, i, d);
      assert C.KeysApart(runs[i], runs[|runs| - 1]);
    }
  }

  lemma FlattenApart(runs: seq<Run>, last: Run)
    requires forall d, f :: d in C.Flatten(runs) && f in last ==> d.cell.key != f.cell.key
    ensures C.KeysApart(C.Flatten(runs), last)
  {}

  /** An entry of an earlier block has another key than the next entry, and so has the whole run when
      the key changes. */
  lemma LastKey(es: Run, flat: Run, b: Run, e: Entry)
    requires Sorted(es + [e]) && es == flat + b && b != [] && C.KeysApart(flat, b)
    ensures forall d :: d in flat ==> d.cell.key != e.cell.key
    ensures e.cell.key != b[|b| - 1].cell.key ==> forall d :: d in es ==> d.cell.key != e.cell.key
  {
    var all, n := es + [e], |es|;
    var last := b[|b| - 1];
    assert all[n - 1] == last && all[n] == e && last in b;
    forall d | d in es && (d in flat || e.cell.key != last.cell.key) ensures d.cell.key != e.cell.key {
      var i :| 0 <= i < n && es[i] == d;
      assert all[i] == d;
      KeysAscend(all, i, n - 1);
      KeysAscend(all, n - 1, n);
      NotBoth(d.cell.key, last.cell.key, e.cell.key);
    }
  }

  lemma GrownSorted(es: Run, flat: Run, b: Run, e: Entry)
    requires Sorted(es + [e]) && es == flat + b
    ensures Sorted(b + [e])
  {
    var all, grown := es + [e], b + [e];
    forall i, j | 0 <= i < j < |grown| ensures Before(grown[i].cell, grown[j].cell) {
      assert grown[i] == all[|flat| + i] && grown[j] == all[|flat| + j];
    }
  }

  lemma GrownSplit(runs: seq<Run>, e: Entry)
    requires runs != [] && C.NoKeySplit(runs)
    requires forall d :: d in C.Flatten(runs[..|runs| - 1]) ==> d.cell.key != e.cell.key
    ensures C.NoKeySplit(runs[..|runs| - 1] + [runs[|runs| - 1] + [e]])
  {
    var front, b := runs[..|runs| - 1], runs[|runs| - 1];
    var grown := front + [b + [e]];
    forall i, j | 0 <= i < j < |grown| ensures C.KeysApart(grown[i], grown[j]) {
      assert C.KeysApart(runs[i], runs[j]);
      forall d: Entry, f: Entry | d in grown[i] && f in grown[j] ensures d.cell.key != f.cell.key {
        if j == |front| && f == e {
          assert C.InTable(front, i, d);
          C.FlattenMembers(front, d);
        }
      }
    }
  }

  // ---------------------------------------------------------------- building

  /** What the builder holds of the block it is filling. */
  ghost predicate Filling(cur: Run, data: Bytes, offsets: seq<nat>, count: nat) {
    && Stored(cur) && data == EncodeAll(cur) && count == |cur|
    && (cur == [] ==> offsets == []) && (cur != [] ==> Restarts(cur, offsets))
  }

  lemma EncodeMore(cur: Run, e: Entry)
    requires AllFit(cur) && Fits(e)
    ensures EncodeAll(cur + [e]) == EncodeAll(cur) + EncodeRecord(e)
  {
    assert (cur + [e])[..|cur|] == cur;
  }

  lemma OffsetMore(cur: Run, e: Entry, i: nat)
    requires AllFit(cur) && Fits(e) && i <= |cur|
    ensures Offset(cur + [e], i) == Offset(cur, i)
  {
    assert (cur + [e])[..i] == cur[..i];
  }

  lemma KeptFits(e: Entry)
    requires Fits(e)
    ensures Fits(Kept(e)) && Kept(Kept(e)) == Kept(e) && EncodeRecord(Kept(e)) == EncodeRecord(e)
  {}

  lemma RestartCount(n: nat, len: nat)
    requires (n == 0 && len == 0) || (n > 0 && (n - 1) * INTERVAL < len <= n * INTERVAL)
    ensures var m := if len % INTERVAL == 0 then n + 1 else n; (m - 1) * INTERVAL < len + 1 <= m * INTERVAL
    ensures len % INTERVAL == 0 ==> n * INTERVAL == len
  {}

  lemma RestartsMore(cur: Run, e: Entry, offsets: seq<nat>, offsets': seq<nat>)
    requires AllFit(cur) && Fits(e) && (cur == [] ==> offsets == []) && (cur != [] ==> Restarts(cur, offsets))
    requires offsets' == if |cur| % INTERVAL == 0 then offsets + [Offset(cur, |cur|)] else offsets
    ensures Restarts(cur + [e], offsets')
  {
    var all := cur + [e];
    RestartCount(|offsets|, |cur|);
    forall j | 0 <= j < |offsets'| ensures offsets'[j] == Offset(all, j * INTERVAL) {
      if j < |offsets| {
        assert j * INTERVAL <= (|offsets| - 1) * INTERVAL;
        OffsetMore(cur, e, j * INTERVAL);
      } else {
        OffsetMore(cur, e, |cur|);
      }
    }
  }

  /** One more record, with a restart point before every sixteenth. */
  lemma FillMore(cur: Run, data: Bytes, offsets: seq<nat>, count: nat, e: Entry, offsets': seq<nat>)
    requires Filling(cur, data, offsets, count) && Fits(e) && Kept(e) == e && Sorted(cur + [e])
    requires offsets' == if count % INTERVAL == 0 then offsets + [|data|] else offsets
    ensures Filling(cur + [e], data + EncodeRecord(e), offsets', count + 1)
  {
    EncodeMore(cur, e);
    OffsetZero(cur);
    RestartsMore(cur, e, offsets, offsets');
  }

  lemma KeptPrefix(entries: Run, n: nat)
    requires n < |entries|
    ensures KeptRun(entries[..n + 1]) == KeptRun(entries[..n]) + [Kept(entries[n])]
  {}

  lemma KeptSorted(entries: Run)
    requires Sorted(entries)
    ensures Sorted(KeptRun(entries))
  {
    var kept := KeptRun(entries);
    forall i, j | 0 <= i < j < |kept| ensures Before(kept[i].cell, kept[j].cell) {
      assert Before(entries[i].cell, entries[j].cell);
    }
  }

  lemma KeysAscend(es: Run, i: nat, j: nat)
    requires Sorted(es) && i <= j < |es|
    ensures Le(es[i].cell.key, es[j].cell.key)
  {
    if i < j { assert Before(es[i].cell, es[j].cell); }
  }

  lemma NotBoth(a: Key, b: Key, c: Key)
    requires Le(a, b) && Le(b, c) && (a != b || b != c)
    ensures a != c
  {
    if a != b && b != c { LtTrans(a, b, c); }
    LtIrreflexive(c);
  }

  // ---------------------------------------------------------------- the builder loop

  /** The blocks written, and the one being filled: its bytes, restart offsets, first key and number
      of records. */
  datatype Draft = Draft(blocks: seq<Block>, data: Bytes, offsets: seq<nat>, first: Option<Key>, count: nat)

  datatype Part = PHeld | PFilling | PFirst | PCut

  ghost predicate DraftedPart(p: Part, entries: Run, n: nat, d: Draft, runs: seq<Run>, cur: Run) {
    match p
    case PHeld => AllHold(d.blocks, runs)
    case PFilling => Filling(cur, d.data, d.offsets, d.count)
    case PFirst => d.first == if cur == [] then None else Some(cur[0].cell.key)
    case PCut => n <= |entries| && Cut(KeptRun(entries[..n])) == if cur == [] then runs else runs + [cur]
  }

  ghost predicate Drafted(entries: Run, n: nat, d: Draft, runs: seq<Run>, cur: Run) {
    forall p: Part :: DraftedPart(p, entries, n, d, runs, cur)
  }

  lemma DraftedAll(entries: Run, n: nat, d: Draft, runs: seq<Run>, cur: Run)
    requires Drafted(entries, n, d, runs, cur)
    ensures AllHold(d.blocks, runs) && Filling(cur, d.data, d.offsets, d.count)
    ensures d.first == if cur == [] then None else Some(cur[0].cell.key)
    ensures n <= |entries| && Cut(KeptRun(entries[..n])) == if cur == [] then runs else runs + [cur]
  {
    assert DraftedPart(PHeld, entries, n, d, runs, cur) && DraftedPart(PFilling, entries, n, d, runs, cur)
        && DraftedPart(PFirst, entries, n, d, runs, cur) && DraftedPart(PCut, entries, n, d, runs, cur);
  }

  lemma DraftedFrom(entries: Run, n: nat, d: Draft, runs: seq<Run>, cur: Run)
    requires AllHold(d.blocks, runs) && Filling(cur, d.data, d.offsets, d.count)
    requires d.first == if cur == [] then None else Some(cur[0].cell.key)
    requires n <= |entries| && Cut(KeptRun(entries[..n])) == if cur == [] then runs else runs + [cur]
    ensures Drafted(entries, n, d, runs, cur)
  {
    forall p: Part ensures DraftedPart(p, entries, n, d, runs, cur) { match p { case _ => } }
  }

  lemma HeldMore(blocks: seq<Block>, runs: seq<Run>, b: Block, cur: Run)
    requires AllHold(blocks, runs) && Holds(b, cur)
    ensures AllHold(blocks + [b], runs + [cur])
  {}

  lemma DraftFlushed(entries: Run, n: nat, d: Draft, runs: seq<Run>, cur: Run, b: Block)
    requires Drafted(entries, n, d, runs, cur) && d.first.Some?
        && b == Block(d.first.value, EncodeBlock(d.data, d.offsets))
    ensures Drafted(entries, n, Draft(d.blocks + [b], [], [], None, 0), runs + [cur], [])
  {
    DraftedAll(entries, n, d, runs, cur);
    assert Restarts(cur, d.offsets);
    HeldMore(d.blocks, runs, b, cur);
    DraftedFrom(entries, n, Draft(d.blocks + [b], [], [], None, 0), runs + [cur], []);
  }

  /** The next entry goes where `Cut` puts it. */
  ghost predicate Joins(runs: seq<Run>, cur: Run, e: Entry) {
    if cur != [] then Size(cur) < BLOCK_BYTES || e.cell.key == cur[|cur| - 1].cell.key
    else runs != [] ==>
      var b := runs[|runs| - 1]; b != [] && Size(b) >= BLOCK_BYTES && e.cell.key != b[|b| - 1].cell.key
  }

  lemma CutMore(entries: Run, n: nat, runs: seq<Run>, cur: Run)
    requires n < |entries| && Cut(KeptRun(entries[..n])) == (if cur == [] then runs else runs + [cur])
    requires Joins(runs, cur, Kept(entries[n]))
    ensures Cut(KeptRun(entries[..n + 1])) == runs + [cur + [Kept(entries[n])]]
  {
    KeptPrefix(entries, n);
    var kept, e := KeptRun(entries[..n]), Kept(entries[n]);
    assert (kept + [e])[..|kept|] == kept;
    if cur != [] {
      assert (runs + [cur])[..|runs|] == runs;
    } else if runs != [] {
      var front, b := runs[..|runs| - 1], runs[|runs| - 1];
      assert cur + [e] == [e] && front + [b, [e]] == runs + [[e]];
    }
  }

  lemma LastSorted(entries: Run, n: nat, runs: seq<Run>, cur: Run)
    requires Sorted(entries) && n <= |entries| && Cut(KeptRun(entries[..n])) == runs + [cur]
    ensures Sorted(cur)
  {
    KeptSorted(entries[..n]);
    CutKeeps(KeptRun(entries[..n]));
    assert (runs + [cur])[|runs|] == cur;
  }

  lemma DraftGrown(entries: Run, n: nat, d: Draft, runs: seq<Run>, cur: Run, e: Entry, d': Draft)
    requires Drafted(entries, n, d, runs, cur) && Sorted(entries) && AllFit(entries) && n < |entries| && e == entries[n]
    requires Joins(runs, cur, Kept(e))
    requires d' == Draft(d.blocks, d.data + EncodeRecord(e),
                         if d.count % INTERVAL == 0 then d.offsets + [|d.data|] else d.offsets,
                         if d.first.None? then Some(e.cell.key) else d.first, d.count + 1)
    ensures Drafted(entries, n + 1, d', runs, cur + [Kept(e)])
  {
    DraftedAll(entries, n, d, runs, cur);
    KeptFits(e);
    CutMore(entries, n, runs, cur);
    LastSorted(entries, n + 1, runs, cur + [Kept(e)]);
    FillMore(cur, d.data, d.offsets, d.count, Kept(e), d'.offsets);
    DraftedFrom(entries, n + 1, d', runs, cur + [Kept(e)]);
  }

  /** Closes the block being filled. */
  method Flush(d: Draft, ghost entries: Run, ghost n: nat, ghost runs: seq<Run>, ghost cur: Run)
    returns (d': Draft, ghost runs': seq<Run>)
    requires Drafted(entries, n, d, runs, cur)
    ensures Drafted(entries, n, d', runs', []) && runs' == if cur == [] then runs else runs + [cur]
  {
    DraftedAll(entries, n, d, runs, cur);
    DataEmpty(cur);
    if |d.data| == 0 {
      return d, runs;
    }
    var b := Block(d.first.value, EncodeBlock(d.data, d.offsets));
    DraftFlushed(entries, n, d, runs, cur, b);
    return Draft(d.blocks + [b], [], [], None, 0), runs + [cur];
  }

  /** Closes the block being filled if it is full and the key changes. */
  method MaybeFlush(d: Draft, e: Entry, prevKey: Key, ghost entries: Run, ghost n: nat, ghost runs: seq<Run>,
      ghost cur: Run)
    returns (d': Draft, ghost runs': seq<Run>, ghost cur': Run)
    requires Drafted(entries, n, d, runs, cur)
    requires (cur == [] ==> runs == []) && (cur != [] ==> prevKey == cur[|cur| - 1].cell.key)
    ensures Drafted(entries, n, d', runs', cur') && Joins(runs', cur', e)
  {
    d', runs', cur' := d, runs, cur;
    DraftedAll(entries, n, d, runs, cur);
    SizeIs(cur);
    if d.first.Some? && |d.data| >= BLOCK_BYTES && e.cell.key != prevKey {
      d', runs' := Flush(d, entries, n, runs, cur);
      cur' := [];
    }
  }

  method AddEntry(d: Draft, e: Entry, prevKey: Key, ghost entries: Run, ghost n: nat, ghost runs: seq<Run>,
      ghost cur: Run)
    returns (d': Draft, ghost runs': seq<Run>, ghost cur': Run)
    requires Drafted(entries, n, d, runs, cur) && Sorted(entries) && AllFit(entries) && n < |entries| && e == entries[n]
    requires (cur == [] ==> runs == []) && (cur != [] ==> prevKey == cur[|cur| - 1].cell.key)
    ensures Drafted(entries, n + 1, d', runs', cur') && cur' != [] && cur'[|cur'| - 1].cell.key == e.cell.key
  {
    d', runs', cur' := MaybeFlush(d, Kept(e), prevKey, entries, n, runs, cur);
    var offsets := if d'.count % INTERVAL == 0 then d'.offsets + [|d'.data|] else d'.offsets;
    var first := if d'.first.None? then Some(e.cell.key) else d'.first;
    var grown := Draft(d'.blocks, d'.data + EncodeRecord(e), offsets, first, d'.count + 1);
    DraftGrown(entries, n, d', runs', cur', e, grown);
    d', cur' := grown, cur' + [Kept(e)];
  }

  /** Cuts a run into blocks of at least the target size, never between two versions of a key. */
  method Build(entries: Run) returns (blocks: seq<Block>)
    requires Sorted(entries) && AllFit(entries)
    ensures AllHold(blocks, Cut(KeptRun(entries))) && CutOk(KeptRun(entries), Cut(KeptRun(entries)))
  {
    var d := Draft([], [], [], None, 0);
    ghost var cur: Run, runs: seq<Run> := [], [];
    DraftedFrom(entries, 0, d, runs, cur);
    var prevKey: Key := [];
    for n := 0 to |entries|
      invariant Drafted(entries, n, d, runs, cur) && (cur == [] <==> n == 0) && (n == 0 ==> runs == [])
      invariant cur != [] ==> prevKey == cur[|cur| - 1].cell.key
    {
      d, runs, cur := AddEntry(d, entries[n], prevKey, entries, n, runs, cur);
      prevKey := entries[n].cell.key;
    }
    d, runs := Flush(d, entries, |entries|, runs, cur);
    DraftedAll(entries, |entries|, d, runs, []);
    assert entries[..|entries|] == entries;
    KeptSorted(entries);
    CutKeeps(KeptRun(entries));
    return d.blocks;
  }

  lemma DataEmpty(cur: Run)
    requires AllFit(cur)
    ensures EncodeAll(cur) == [] <==> cur == []
  {
    if cur != [] { RecordNotEmpty(cur[|cur| - 1]); }
  }

  // ---------------------------------------------------------------- the index

  lemma {:induction false} RunsBefore(runs: seq<Run>, i: int, j: int, e: Entry, f: Entry)
    requires Sorted(C.Flatten(runs)) && i < j && C.InTable(runs, i, e) && C.InTable(runs, j, f)
    ensures Before(e.cell, f.cell)
  {
    var front, last := runs[..|runs| - 1], runs[|runs| - 1];
    var flat, all := C.Flatten(front), C.Flatten(runs);
    assert C.InTable(front, i, e);
    if j == |runs| - 1 {
      C.FlattenMembers(front, e);
      var a :| 0 <= a < |flat| && flat[a] == e;
      var b :| 0 <= b < |last| && last[b] == f;
      assert all[a] == e && all[|flat| + b] == f;
    } else {
      assert C.InTable(front, j, f);
      assert forall n :: 0 <= n < |flat| ==> all[n] == flat[n];
      RunsBefore(front, i, j, e, f);
    }
  }

  /** `idx` is the last block whose first key is not larger. */
  ghost predicate LastNotLarger(blocks: seq<Block>, k: Key, idx: int) {
    && -1 <= idx < |blocks|
    && (forall j :: 0 <= j <= idx ==> !Lt(k, blocks[j].first))
    && forall j :: idx < j < |blocks| ==> Lt(k, blocks[j].first)
  }

  /** The binary search of the index. */
  method FindBlock(blocks: seq<Block>, k: Key) returns (idx: int)
    requires forall i, j :: 0 <= i < j < |blocks| ==> Lt(blocks[i].first, blocks[j].first)
    ensures LastNotLarger(blocks, k, idx)
  {
    var low, high := 0, |blocks| - 1;
    idx := -1;
    while low <= high
      invariant 0 <= low <= high + 1 <= |blocks| && idx == low - 1
      invariant forall j :: 0 <= j < low ==> !Lt(k, blocks[j].first)
      invariant forall j :: high < j < |blocks| ==> Lt(k, blocks[j].first)
      decreases high - low + 1
    {
      var mid := (low + high) / 2;
      if Le(blocks[mid].first, k) {
        forall j | 0 <= j < mid + 1 ensures !Lt(k, blocks[j].first) { FirstNotLarger(blocks, k, j, mid); }
        idx, low := mid, mid + 1;
      } else {
        forall j | mid - 1 < j < |blocks| ensures Lt(k, blocks[j].first) { FirstLarger(blocks, k, j, mid); }
        high := mid - 1;
      }
    }
  }

  lemma FirstNotLarger(blocks: seq<Block>, k: Key, j: int, mid: int)
    requires (forall i, j :: 0 <= i < j < |blocks| ==> Lt(blocks[i].first, blocks[j].first)) && 0 <= j <= mid < |blocks|
    requires Le(blocks[mid].first, k)
    ensures !Lt(k, blocks[j].first)
  {
    if blocks[mid].first == k { LtIrreflexive(k); } else { LtAsym(blocks[mid].first, k); }
    if j < mid {
      LtAsym(blocks[j].first, blocks[mid].first);
      NotLtTrans(k, blocks[mid].first, blocks[j].first);
    }
  }

  lemma FirstLarger(blocks: seq<Block>, k: Key, j: int, mid: int)
    requires (forall i, j :: 0 <= i < j < |blocks| ==> Lt(blocks[i].first, blocks[j].first)) && 0 <= mid <= j < |blocks|
    requires !Le(blocks[mid].first, k)
    ensures Lt(k, blocks[j].first)
  {
    LtTotal(blocks[mid].first, k);
    if mid < j { LtTrans(k, blocks[mid].first, blocks[j].first); }
  }

  lemma FirstIsLeast(run: Run, e: Entry)
    requires Sorted(run) && e in run
    ensures !Lt(e.cell.key, run[0].cell.key)
  {
    var i :| 0 <= i < |run| && run[i] == e;
    if i > 0 { assert Before(run[0].cell, run[i].cell); }
    LtIrreflexive(e.cell.key);
    if Lt(run[0].cell.key, e.cell.key) { LtAsym(run[0].cell.key, e.cell.key); }
  }

  lemma SamePick(flat: Run, runs: seq<Run>, k: Key, bound: Option<nat>, idx: nat, e: Entry)
    requires flat == C.Flatten(runs) && Sorted(flat) && idx < |runs| && Sorted(runs[idx])
    requires Pick(flat, k, bound) == Some(e) && e in runs[idx] && Visible(e, k, bound)
    ensures Pick(runs[idx], k, bound) == Some(e)
  {
    PickNewest(runs[idx], k, bound, e);
    PickIn(runs[idx], k, bound);
    var f := Pick(runs[idx], k, bound).value;
    assert C.InTable(runs, idx, f);
    C.FlattenMembers(runs, f);
    PickNewest(flat, k, bound, f);
    PickIn(flat, k, bound);
    SortedDistinct(flat);
    DistinctSingle(flat);
  }

  // ---------------------------------------------------------------- the lookup

  function RestartNumber(run: Run): nat {
    (|run| + INTERVAL - 1) / INTERVAL
  }

  lemma RestartNumberIs(run: Run, offsets: seq<nat>)
    requires Restarts(run, offsets)
    ensures |offsets| == RestartNumber(run)
  {}

  lemma RestartNumberFits(run: Run)
    requires run != []
    ensures RestartNumber(run) > 0 && (RestartNumber(run) - 1) * INTERVAL < |run|
  {}

  /** What scanning a block returns. */
  function BlockPick(run: Run, k: Key, bound: Option<nat>): Option<Entry>
    requires Sorted(run) && run != []
  {
    RestartNumberFits(run);
    if RestartNumber(run) > 1 then RestartPick(run, RestartNumber(run), k, bound) else Pick(run, k, bound)
  }

  /** The versions of a key cross a restart point of the block, and the scan leaves one out. */
  ghost predicate BlockCrosses(run: Run, k: Key, bound: Option<nat>)
    requires run != []
  {
    RestartNumberFits(run);
    Crosses(run, RestartNumber(run), k, bound)
  }

  lemma BlockPickIff(run: Run, k: Key, bound: Option<nat>)
    requires Sorted(run) && run != []
    ensures BlockPick(run, k, bound) == Pick(run, k, bound) <==> !BlockCrosses(run, k, bound)
  {
    RestartNumberFits(run);
    var n := RestartNumber(run);
    if n > 1 {
      RestartAgreesIff(run, n, k, bound);
    } else {
      forall j: nat ensures !CrossesAt(run, n, k, bound, j) {}
    }
  }

  ghost predicate Small(runs: seq<Run>) {
    forall i :: 0 <= i < |runs| ==>
        AllFit(runs[i]) && |EncodeAll(runs[i])| < Pow256(4) && RestartNumber(runs[i]) < Pow256(4)
  }

  /** The last block whose first key is not larger; -1 if there is none. */
  function BlockOf(runs: seq<Run>, k: Key): (idx: int)
    requires forall i :: 0 <= i < |runs| ==> runs[i] != []
    ensures -1 <= idx < |runs|
  {
    if runs == [] then -1
    else if Le(runs[|runs| - 1][0].cell.key, k) then |runs| - 1
    else BlockOf(runs[..|runs| - 1], k)
  }

  /** What a lookup in the table of `es` returns. */
  function TableGet(es: Run, k: Key, bound: Option<nat>): Option<Entry>
    requires Sorted(es)
  {
    CutKeeps(es);
    var idx := BlockOf(Cut(es), k);
    if idx < 0 then None else BlockPick(Cut(es)[idx], k, bound)
  }

  /** In the block of `k` its versions cross a restart point, and the scan leaves one out. */
  ghost predicate TableCrosses(es: Run, k: Key, bound: Option<nat>)
    requires Sorted(es)
  {
    CutKeeps(es);
    var idx := BlockOf(Cut(es), k);
    idx >= 0 && BlockCrosses(Cut(es)[idx], k, bound)
  }

  /** The block to look in, told from the runs alone. */
  lemma {:induction false} BlockOfLast(runs: seq<Run>, k: Key, j: int)
    requires (forall i :: 0 <= i < |runs| ==> runs[i] != []) && 0 <= j < |runs|
    requires forall i, j :: 0 <= i < j < |runs| ==> Lt(runs[i][0].cell.key, runs[j][0].cell.key)
    ensures j <= BlockOf(runs, k) ==> !Lt(k, runs[j][0].cell.key)
    ensures j > BlockOf(runs, k) ==> Lt(k, runs[j][0].cell.key)
  {
    var n := |runs| - 1;
    var last := runs[n][0].cell.key;
    LtTotal(last, k);
    LtIrreflexive(k);
    if Le(last, k) {
      if last != k { LtAsym(last, k); }
      if j < n {
        LtAsym(runs[j][0].cell.key, last);
        NotLtTrans(k, last, runs[j][0].cell.key);
      }
    } else if j < n {
      BlockOfLast(runs[..n], k, j);
    }
  }

  lemma BlockOfIs(blocks: seq<Block>, runs: seq<Run>, k: Key, idx: int)
    requires |blocks| == |runs| && LastNotLarger(blocks, k, idx)
    requires forall i :: 0 <= i < |runs| ==> runs[i] != [] && blocks[i].first == runs[i][0].cell.key
    requires forall i, j :: 0 <= i < j < |runs| ==> Lt(runs[i][0].cell.key, runs[j][0].cell.key)
    ensures BlockOf(runs, k) == idx
  {
    var got := BlockOf(runs, k);
    if got < idx { BlockOfLast(runs, k, idx); }
    if idx < got { BlockOfLast(runs, k, got); }
  }

  lemma FirstsGrow(es: Run, runs: seq<Run>, i: int, j: int)
    requires Sorted(es) && CutOk(es, runs) && 0 <= i < j < |runs|
    ensures Lt(runs[i][0].cell.key, runs[j][0].cell.key)
  {
    assert C.InTable(runs, i, runs[i][0]) && C.InTable(runs, j, runs[j][0]);
    RunsBefore(runs, i, j, runs[i][0], runs[j][0]);
    assert C.KeysApart(runs[i], runs[j]);
  }

  /** All versions of a key are in the block the index points to. */
  lemma KeyInBlock(es: Run, runs: seq<Run>, k: Key, e: Entry)
    requires Sorted(es) && CutOk(es, runs) && e in es && e.cell.key == k
    ensures BlockOf(runs, k) >= 0 && e in runs[BlockOf(runs, k)]
  {
    C.FlattenMembers(runs, e);
    var i :| C.InTable(runs, i, e);
    var idx := BlockOf(runs, k);
    forall a, b | 0 <= a < b < |runs|
      ensures Lt(runs[a][0].cell.key, runs[b][0].cell.key) { FirstsGrow(es, runs, a, b); }
    BlockOfLast(runs, k, i);
    FirstIsLeast(runs[i], e);
    if i < idx {
      BlockOfLast(runs, k, idx);
      EarlierSmaller(es, runs, i, idx, e);
    }
  }

  lemma EarlierSmaller(es: Run, runs: seq<Run>, i: int, j: int, e: Entry)
    requires Sorted(es) && CutOk(es, runs) && i < j < |runs| && C.InTable(runs, i, e)
    ensures Lt(e.cell.key, runs[j][0].cell.key)
  {
    assert C.InTable(runs, j, runs[j][0]);
    RunsBefore(runs, i, j, e, runs[j][0]);
    assert C.KeysApart(runs[i], runs[j]);
  }

  /** So looking in that block alone finds what looking everywhere would find. */
  lemma PickInBlock(es: Run, runs: seq<Run>, k: Key, bound: Option<nat>)
    requires Sorted(es) && CutOk(es, runs)
    ensures Pick(es, k, bound) == if BlockOf(runs, k) < 0 then None else Pick(runs[BlockOf(runs, k)], k, bound)
  {
    var idx := BlockOf(runs, k);
    PickNone(es, k, bound);
    if Pick(es, k, bound).Some? {
      PickIn(es, k, bound);
      var e := Pick(es, k, bound).value;
      KeyInBlock(es, runs, k, e);
      SamePick(es, runs, k, bound, idx, e);
    } else if idx >= 0 {
      forall i | 0 <= i < |runs[idx]| ensures !Visible(runs[idx][i], k, bound) {
        assert C.InTable(runs, idx, runs[idx][i]);
        C.FlattenMembers(runs, runs[idx][i]);
      }
      PickNone(runs[idx], k, bound);
    }
  }

  /** What a lookup returns is a version in the table that it may see. */
  lemma TableGetIn(es: Run, k: Key, bound: Option<nat>)
    requires Sorted(es) && TableGet(es, k, bound).Some?
    ensures TableGet(es, k, bound).value in es && Visible(TableGet(es, k, bound).value, k, bound)
  {
    CutKeeps(es);
    var runs := Cut(es);
    var idx := BlockOf(runs, k);
    RestartNumberFits(runs[idx]);
    if RestartNumber(runs[idx]) > 1 { RestartPickIn(runs[idx], RestartNumber(runs[idx]), k, bound); }
    else { PickIn(runs[idx], k, bound); }
    assert C.InTable(runs, idx, TableGet(es, k, bound).value);
    C.FlattenMembers(runs, TableGet(es, k, bound).value);
  }

  lemma TableCrossingFinds(es: Run, k: Key, bound: Option<nat>)
    requires Sorted(es) && TableCrosses(es, k, bound)
    ensures TableGet(es, k, bound).Some?
  {
    CutKeeps(es);
    var run := Cut(es)[BlockOf(Cut(es), k)];
    RestartNumberFits(run);
    CrossingFinds(run, RestartNumber(run), k, bound);
  }

  /** The lookup finds the newest visible version of the run that the table was written from, unless and
      only unless its versions cross a restart point of their block. */
  lemma LookupIff(es: Run, k: Key, bound: Option<nat>)
    requires Sorted(es)
    ensures TableGet(es, k, bound) == Pick(es, k, bound) <==> !TableCrosses(es, k, bound)
  {
    CutKeeps(es);
    var runs := Cut(es);
    PickInBlock(es, runs, k, bound);
    if BlockOf(runs, k) >= 0 { BlockPickIff(runs[BlockOf(runs, k)], k, bound); }
  }

  lemma {:induction false} SizeBound(es: Run, m: nat)
    requires forall i :: 0 <= i < |es| ==> Length(es[i]) <= m
    ensures Size(es) <= m * |es|
  {
    if es != [] { SizeBound(es[..|es| - 1], m); }
  }

  /** A run below the target size is one block. */
  lemma {:induction false} OneBlock(es: Run)
    requires es != [] && Size(es) < BLOCK_BYTES
    ensures Cut(es) == [es]
  {
    var front, e := es[..|es| - 1], es[|es| - 1];
    assert es == front + [e];
    if front != [] {
      OneBlock(front);
      assert [front][..0] == [] && [] + [front + [e]] == [es];
    }
  }

  lemma OneBlockGet(es: Run, k: Key, bound: Option<nat>)
    requires Sorted(es) && es != [] && Cut(es) == [es] && Le(es[0].cell.key, k)
    ensures TableGet(es, k, bound) == BlockPick(es, k, bound)
  {}

  /** A table of seventeen small entries, in one block with two restart points, that answers with the
      older of two versions. */
  lemma TableMisses(bound: Option<nat>)
    requires bound.None? || bound.value >= 18
    ensures Sorted(Crossing()) && KeptRun(Crossing()) == Crossing() && Cut(Crossing()) == [Crossing()]
    ensures Pick(Crossing(), [15], bound) == Some(CrossingEntry(15))
    ensures TableGet(Crossing(), [15], bound) == Some(CrossingEntry(16))
  {
    CrossingMisses(bound);
    CrossingCut();
    OneByte(0, 15);
    OneBlockGet(Crossing(), [15], bound);
    assert RestartNumber(Crossing()) == 2;
  }

  lemma CrossingCut()
    requires Stored(Crossing())
    ensures KeptRun(Crossing()) == Crossing() && Cut(Crossing()) == [Crossing()]
  {
    SizeBound(Crossing(), 27);
    OneBlock(Crossing());
  }

  lemma NoKeyNoPick(run: Run, k: Key, bound: Option<nat>)
    requires Sorted(run) && run != [] && forall e :: e in run ==> e.cell.key != k
    ensures BlockPick(run, k, bound).None?
  {
    assert NoneVisible(run, k, bound);
    PickNone(run, k, bound);
    BlockPickIff(run, k, bound);
    RestartNumberFits(run);
    forall j: nat ensures !CrossesAt(run, RestartNumber(run), k, bound, j) {
      if 0 < j < RestartNumber(run) && j * INTERVAL <= (RestartNumber(run) - 1) * INTERVAL {
        assert run[j * INTERVAL - 1] in run;
      }
    }
  }

  /** A whole table: its blocks and its filter. */
  ghost predicate TableOf(blocks: seq<Block>, filter: Filter, h: Bytes -> nat, entries: Run)
    reads filter, filter.data
  {
    && Sorted(entries) && AllHold(blocks, Cut(KeptRun(entries))) && CutOk(KeptRun(entries), Cut(KeptRun(entries)))
    && filter.Valid(h) && forall e :: e in entries ==> e.cell.key in filter.added
  }

  /** The filter knows the prefix of every key of the run. */
  ghost predicate Knows(f: Filter, run: Run)
    reads f
  {
    forall e :: e in run ==> ExtractPrefix(e.cell.key) in f.added
  }

  /** Writes a table: the blocks, a filter over all the keys and one over their prefixes. */
  method Create(entries: Run, probes: nat, h: Bytes -> nat)
    returns (blocks: seq<Block>, filter: Filter, prefixes: Filter)
    requires Sorted(entries) && AllFit(entries)
    ensures TableOf(blocks, filter, h, entries) && fresh(filter) && fresh(filter.data)
    ensures prefixes.Valid(h) && Knows(prefixes, KeptRun(entries)) && fresh(prefixes) && fresh(prefixes.data)
  {
    blocks := Build(entries);
    var keys := [];
    var starts := [];
    for i := 0 to |entries|
      invariant |keys| == |starts| == i
      invariant forall j :: 0 <= j < i ==> keys[j] == entries[j].cell.key && starts[j] == ExtractPrefix(keys[j])
    {
      keys := keys + [entries[i].cell.key];
      starts := starts + [ExtractPrefix(entries[i].cell.key)];
    }
    filter := FilterOf(keys, probes, h);
    prefixes := FilterOf(starts, probes, h);
    forall e | e in entries ensures e.cell.key in filter.added {
      var i :| 0 <= i < |entries| && entries[i] == e;
      assert keys[i] in keys;
    }
    forall e | e in KeptRun(entries) ensures ExtractPrefix(e.cell.key) in prefixes.added {
      var i :| 0 <= i < |entries| && KeptRun(entries)[i] == e;
      assert starts[i] in starts;
    }
  }

  method FilterOf(keys: seq<Bytes>, probes: nat, h: Bytes -> nat) returns (filter: Filter)
    ensures filter.Valid(h) && fresh(filter) && fresh(filter.data)
    ensures forall k :: k in keys ==> k in filter.added
  {
    filter := new Filter(|keys|, 10, probes, h);
    for i := 0 to |keys|
      invariant filter.Valid(h) && fresh(filter) && fresh(filter.data)
      invariant forall j :: 0 <= j < i ==> keys[j] in filter.added
    {
      filter.Add(h, keys[i]);
    }
  }

  /** A lookup through filter, index and block. */
  method Get(blocks: seq<Block>, k: Key, bound: Option<nat>, filter: Filter, h: Bytes -> nat, ghost entries: Run)
    returns (r: Option<Entry>)
    requires TableOf(blocks, filter, h, entries) && Small(Cut(KeptRun(entries))) && Sorted(KeptRun(entries))
    ensures r == TableGet(KeptRun(entries), k, bound)
  {
    ghost var kept := KeptRun(entries);
    ghost var runs := Cut(kept);
    Ascending(blocks, runs, kept);
    var target := FindBlock(blocks, k);
    BlockOfIs(blocks, runs, k, target);
    var may := filter.MayContain(h, k);
    if !may {
      if target >= 0 { Denied(entries, target, k, bound, filter.added); }
      return None;
    }
    if |blocks| == 0 || target == -1 { return None; }
    r := GetInBlock(blocks[target], k, bound, runs[target]);
  }

  lemma Ascending(blocks: seq<Block>, runs: seq<Run>, es: Run)
    requires AllHold(blocks, runs) && Sorted(es) && CutOk(es, runs)
    ensures forall i :: 0 <= i < |runs| ==> runs[i] != [] && blocks[i].first == runs[i][0].cell.key
    ensures forall i, j :: 0 <= i < j < |blocks| ==> Lt(blocks[i].first, blocks[j].first)
  {
    forall i | 0 <= i < |runs|
      ensures runs[i] != [] && blocks[i].first == runs[i][0].cell.key { assert Holds(blocks[i], runs[i]); }
    forall i, j | 0 <= i < j < |blocks| ensures Lt(blocks[i].first, blocks[j].first) {
      assert Holds(blocks[i], runs[i]) && Holds(blocks[j], runs[j]);
      FirstsGrow(es, runs, i, j);
    }
  }

  lemma Denied(entries: Run, idx: nat, k: Key, bound: Option<nat>, added: set<Bytes>)
    requires CutOk(KeptRun(entries), Cut(KeptRun(entries))) && idx < |Cut(KeptRun(entries))|
    requires (forall e :: e in entries ==> e.cell.key in added) && k !in added
    ensures BlockPick(Cut(KeptRun(entries))[idx], k, bound).None?
  {
    var kept, runs := KeptRun(entries), Cut(KeptRun(entries));
    forall e: Entry | e in runs[idx] ensures e.cell.key != k {
      assert C.InTable(runs, idx, e);
      C.FlattenMembers(runs, e);
      var n :| 0 <= n < |entries| && kept[n] == e;
      assert entries[n] in entries;
    }
    NoKeyNoPick(runs[idx], k, bound);
  }

  method GetInBlock(b: Block, k: Key, bound: Option<nat>, ghost run: Run) returns (r: Option<Entry>)
    requires Holds(b, run) && |EncodeAll(run)| < Pow256(4) && RestartNumber(run) < Pow256(4)
    ensures r == BlockPick(run, k, bound)
  {
    ghost var offsets :| Restarts(run, offsets) && b.bytes == EncodeBlock(EncodeAll(run), offsets);
    RestartNumberIs(run, offsets);
    r := ScanBlock(b.bytes, k, bound, run, offsets);
  }

  // ---------------------------------------------------------------- reading everything

  method ReadBlock(b: Block, ghost run: Run) returns (es: Run)
    requires Holds(b, run) && |EncodeAll(run)| < Pow256(4) && RestartNumber(run) < Pow256(4)
    ensures es == run
  {
    ghost var offsets :| Restarts(run, offsets) && b.bytes == EncodeBlock(EncodeAll(run), offsets);
    RestartNumberIs(run, offsets);
    forall j | 0 <= j < |offsets| ensures offsets[j] < Pow256(4) { RestartOffset(run, offsets, j); }
    BlockRound(EncodeAll(run), offsets);
    es := ReadRecords(ParseBlock(b.bytes).value.0, run);
  }

  method ReadRecords(data: Bytes, ghost run: Run) returns (es: Run)
    requires Stored(run) && data == EncodeAll(run)
    ensures es == run
  {
    es := [];
    var off := 0;
    OffsetZero(run);
    while off < |data|
      invariant |es| <= |run| && es == run[..|es|] && off == Offset(run, |es|)
      decreases |run| - |es|
    {
      var e, next := NextRecord(data, off, run, |es|);
      es, off := es + [e], next;
    }
    OffsetMonotone(run, |es|);
  }

  /** Reading a table block by block gives back the run it was written from. */
  method ReadAll(blocks: seq<Block>, ghost runs: seq<Run>) returns (es: Run)
    requires AllHold(blocks, runs) && Small(runs)
    ensures es == C.Flatten(runs)
  {
    es := [];
    for i := 0 to |blocks|
      invariant es == C.Flatten(runs[..i])
    {
      assert Holds(blocks[i], runs[i]);
      var more := ReadBlock(blocks[i], runs[i]);
      FlattenTake(runs, i);
      es := es + more;
    }
    assert runs[..|blocks|] == runs;
  }

  lemma FlattenTake(runs: seq<Run>, i: nat)
    requires i < |runs|
    ensures C.Flatten(runs[..i + 1]) == C.Flatten(runs[..i]) + runs[i]
  {
    assert runs[..i + 1][..i] == runs[..i];
  }
}
