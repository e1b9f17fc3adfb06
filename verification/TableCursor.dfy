/** The iterator of a table: it seeks to a key and then reads record after record, block after block. */
module TableCursor {
  import opened Store
  import opened ByteOrder
  import opened Entries
  import opened MergeIterators
  import opened Encoding
  import opened SSTable
  import opened TableFile
  import C = Compaction

  // ---------------------------------------------------------------- where blocks begin

  ghost predicate LaidAt(runs: seq<Run>, flat: Run, starts: seq<nat>, b: nat) {
    && b < |runs| && b + 1 < |starts| && runs[b] != [] && starts[b + 1] == starts[b] + |runs[b]| <= |flat|
    && forall i :: 0 <= i < |runs[b]| ==> flat[starts[b] + i] == runs[b][i]
  }

  /** `flat` is the blocks one after the other, block `b` beginning at `starts[b]`. */
  ghost predicate Laid(runs: seq<Run>, flat: Run, starts: seq<nat>) {
    && |starts| == |runs| + 1 && starts[0] == 0 && starts[|runs|] == |flat|
    && forall b :: 0 <= b < |runs| ==> LaidAt(runs, flat, starts, b)
  }

  lemma {:induction false} Layout(runs: seq<Run>) returns (starts: seq<nat>)
    requires forall b :: 0 <= b < |runs| ==> runs[b] != []
    ensures Laid(runs, C.Flatten(runs), starts)
  {
    if runs == [] {
      starts := [0];
    } else {
      var front, last := runs[..|runs| - 1], runs[|runs| - 1];
      var before := Layout(front);
      var flat := C.Flatten(runs);
      starts := before + [|flat|];
      forall b | 0 <= b < |runs| ensures LaidAt(runs, flat, starts, b) {
        if b < |front| { assert LaidAt(front, C.Flatten(front), before, b); }
      }
    }
  }

  /** Blocks begin in order. */
  lemma {:induction false} StartsGrow(runs: seq<Run>, flat: Run, starts: seq<nat>, a: nat, b: nat)
    requires Laid(runs, flat, starts) && a <= b <= |runs|
    ensures starts[a] <= starts[b] <= |flat|
    decreases |runs| - a
  {
    if a < b {
      assert LaidAt(runs, flat, starts, a);
      StartsGrow(runs, flat, starts, a + 1, b);
    } else if a < |runs| {
      assert LaidAt(runs, flat, starts, a);
    }
  }

  lemma {:induction false} BlockAt(runs: seq<Run>, flat: Run, starts: seq<nat>, n: nat, b: nat) returns (c: nat, i: nat)
    requires Laid(runs, flat, starts) && b <= |runs| && n < starts[b]
    ensures c < b && i < |runs[c]| && n == starts[c] + i && n < |flat| && flat[n] == runs[c][i]
  {
    assert LaidAt(runs, flat, starts, b - 1);
    if n < starts[b - 1] {
      c, i := BlockAt(runs, flat, starts, n, b - 1);
    } else {
      c, i := b - 1, n - starts[b - 1];
    }
  }

  ghost predicate AllSmaller(es: Run, n: nat, k: Key) {
    n <= |es| && forall j :: 0 <= j < n ==> Lt(es[j].cell.key, k)
  }

  /** `n` is the place of the first record whose key is not smaller, or the end. */
  ghost predicate FirstNotSmaller(es: Run, n: nat, k: Key) {
    AllSmaller(es, n, k) && (n < |es| ==> !Lt(es[n].cell.key, k))
  }

  /** The blocks before the one the index points to hold smaller keys only. */
  lemma BlocksBefore(flat: Run, runs: seq<Run>, starts: seq<nat>, blocks: seq<Block>, k: Key, target: nat)
    requires Sorted(flat) && CutOk(flat, runs) && Laid(runs, flat, starts) && AllHold(blocks, runs) && target < |blocks|
    requires target > 0 ==> !Lt(k, blocks[target].first)
    ensures AllSmaller(flat, starts[target], k)
  {
    StartsGrow(runs, flat, starts, target, target);
    forall j | 0 <= j < starts[target] ensures Lt(flat[j].cell.key, k) {
      var b, i := BlockAt(runs, flat, starts, j, target);
      assert C.InTable(runs, b, flat[j]) && Holds(blocks[target], runs[target]);
      EarlierSmaller(flat, runs, b, target, flat[j]);
      LtNotLtTrans(flat[j].cell.key, blocks[target].first, k);
    }
  }

  // ---------------------------------------------------------------- one block

  ghost predicate ReadsBlock(lens: Lens, data: Bytes, off: nat, run: Run, i: nat) {
    Stored(run) && data == EncodeAll(run) && i <= |run| && off == Offset(run, i)
  }

  /** The first `i` records of a block have been read from its bytes. */
  ghost predicate Reading(data: Bytes, off: nat, run: Run, i: nat) {
    forall lens: Lens :: ReadsBlock(lens, data, off, run, i)
  }

  method OpenBlock(b: Block, ghost run: Run) returns (data: Bytes)
    requires Holds(b, run) && |EncodeAll(run)| < Pow256(4) && RestartNumber(run) < Pow256(4)
    ensures Reading(data, 0, run, 0)
  {
    ghost var offsets :| Restarts(run, offsets) && b.bytes == EncodeBlock(EncodeAll(run), offsets);
    RestartNumberIs(run, offsets);
    forall j | 0 <= j < |offsets| ensures offsets[j] < Pow256(4) { RestartOffset(run, offsets, j); }
    BlockRound(EncodeAll(run), offsets);
    data := ParseBlock(b.bytes).value.0;
    OffsetZero(run);
  }

  /** One more record of a block, if there is one. */
  method ReadRecord(data: Bytes, off: nat, ghost run: Run, ghost i: nat) returns (ok: bool, e: Entry, next: nat)
    requires Reading(data, off, run, i)
    ensures ok == (i < |run|) && (!ok ==> i == |run| && next == off)
    ensures ok ==> e == run[i] && Reading(data, next, run, i + 1)
  {
    assert ReadsBlock(Lens, data, off, run, i);
    OffsetZero(run);
    if off == |data| {
      OffsetMonotone(run, i);
      return false, Entry(Cell([], 0), Payload([], false, 0)), off;
    }
    e, next := NextRecord(data, off, run, i);
    ok := true;
  }

  // ---------------------------------------------------------------- the whole table

  /** A table: its blocks, the runs they hold, all their records, and where each block begins. */
  datatype View = View(blocks: seq<Block>, runs: seq<Run>, flat: Run, starts: seq<nat>)

  datatype Clause = CTable | CLaid | CShort

  ghost predicate ViewPart(c: Clause, v: View) {
    match c
    case CTable => AllHold(v.blocks, v.runs) && Small(v.runs) && Sorted(v.flat) && CutOk(v.flat, v.runs)
    case CLaid => Laid(v.runs, v.flat, v.starts)
    case CShort => |v.blocks| == |v.runs| == |v.starts| - 1
  }

  ghost predicate ViewOk(v: View) {
    forall c: Clause :: ViewPart(c, v)
  }

  lemma ViewOf(blocks: seq<Block>, runs: seq<Run>) returns (v: View)
    requires AllHold(blocks, runs) && Small(runs) && Sorted(C.Flatten(runs)) && CutOk(C.Flatten(runs), runs)
    ensures ViewOk(v) && v.blocks == blocks && v.runs == runs && v.flat == C.Flatten(runs)
  {
    var starts := Layout(runs);
    v := View(blocks, runs, C.Flatten(runs), starts);
    forall c: Clause ensures ViewPart(c, v) { match c { case _ => } }
  }

  /** The cursor has read `i` records of block `b`, and `next` of the table. */
  ghost predicate Placed(v: View, b: int, data: Bytes, off: nat, i: nat, next: nat) {
    && ViewPart(CShort, v) && -1 <= b < |v.blocks|
    && if b == -1 then i == 0 && next == 0 else Reading(data, off, v.runs[b], i) && next == v.starts[b] + i
  }

  /** What the next record of a block is in the table. */
  lemma RecordPlace(v: View, b: nat, i: nat)
    requires ViewOk(v) && ViewPart(CShort, v) && b < |v.blocks| && i <= |v.runs[b]|
    ensures v.starts[b] + |v.runs[b]| == v.starts[b + 1] <= |v.flat| && v.runs[b] != []
    ensures i < |v.runs[b]| ==> v.flat[v.starts[b] + i] == v.runs[b][i]
  {
    assert ViewPart(CLaid, v);
    assert LaidAt(v.runs, v.flat, v.starts, b);
  }

  lemma Ends(v: View)
    requires ViewOk(v)
    ensures ViewPart(CShort, v) && v.starts[0] == 0 && v.starts[|v.blocks|] == |v.flat|
  {
    assert ViewPart(CLaid, v) && ViewPart(CShort, v);
  }

  class Cursor {
    const blocks: seq<Block>
    ghost const v: View
    var blockIdx: int
    var data: Bytes
    var off: nat
    var valid: bool
    var entry: Entry
    /** How many records have been read of the block, and read or passed of the table. */
    ghost var i: nat
    ghost var next: nat

    ghost predicate Valid()
      reads this
    {
      ViewOk(v) && v.blocks == blocks && Placed(v, blockIdx, data, off, i, next)
    }

    constructor (blocks: seq<Block>, ghost runs: seq<Run>)
      requires AllHold(blocks, runs) && Small(runs) && Sorted(C.Flatten(runs)) && CutOk(C.Flatten(runs), runs)
      ensures Valid() && this.blocks == blocks && v.flat == C.Flatten(runs) && next == 0 && !valid
    {
      ghost var view := ViewOf(blocks, runs);
      Ends(view);
      this.blocks, v := blocks, view;
      blockIdx, data, off, valid, i, next := -1, [], 0, false, 0, 0;
      entry := Entry(Cell([], 0), Payload([], false, 0));
    }

    /** Starts a block. */
    method LoadBlock(idx: nat)
      requires Valid() && idx < |blocks|
      modifies this`blockIdx, this`data, this`off, this`i, this`next
      ensures Valid() && blockIdx == idx && i == 0 && next == v.starts[idx]
    {
      assert ViewPart(CTable, v);
      assert Holds(blocks[idx], v.runs[idx]);
      data := OpenBlock(blocks[idx], v.runs[idx]);
      blockIdx, off, i, next := idx, 0, 0, v.starts[idx];
    }

    /** One more record of the block, if there is one. */
    method ReadNextRecord() returns (ok: bool)
      requires Valid() && blockIdx >= 0
      modifies this`entry, this`off, this`i, this`next
      ensures Valid()
      ensures ok ==> old(next) < |v.flat| && next == old(next) + 1 && entry == v.flat[old(next)]
      ensures !ok ==> next == old(next) == v.starts[blockIdx + 1]
      ensures ok == (old(i) < |v.runs[blockIdx]|)
    {
      var more, e, end := ReadRecord(data, off, v.runs[blockIdx], i);
      RecordPlace(v, blockIdx, if more then i else |v.runs[blockIdx]|);
      if more { entry, off, i, next := e, end, i + 1, next + 1; }
      ok := more;
    }

    /** Moves on to the next record of the table. */
    method Next() returns (ok: bool)
      requires Valid()
      modifies this
      ensures Valid() && ok == valid == (old(next) < |v.flat|)
      ensures ok ==> next == old(next) + 1 && entry == v.flat[old(next)]
      ensures !ok ==> next == |v.flat|
    {
      Ends(v);
      if blockIdx >= 0 {
        var more := ReadNextRecord();
        if more {
          valid := true;
          return true;
        }
      }
      if blockIdx + 1 < |blocks| {
        RecordPlace(v, blockIdx + 1, 0);
        LoadBlock(blockIdx + 1);
        var first := ReadNextRecord();
        valid := true;
        return true;
      }
      valid := false;
      return false;
    }

    /** Reads on in the block to the first key that is not smaller. */
    method SeekInBlock(k: Key) returns (found: bool)
      requires Valid() && blockIdx >= 0 && AllSmaller(v.flat, next, k)
      modifies this`entry, this`off, this`i, this`next
      ensures Valid()
      ensures found ==>
          next > 0 && FirstNotSmaller(v.flat, next - 1, k) && next - 1 < |v.flat| && entry == v.flat[next - 1]
      ensures !found ==> next == v.starts[blockIdx + 1] && AllSmaller(v.flat, next, k)
    {
      while true
        invariant Valid() && AllSmaller(v.flat, next, k)
        decreases |v.flat| - next
      {
        var more := ReadNextRecord();
        if !more { return false; }
        if !Lt(entry.cell.key, k) { return true; }
      }
    }

    /** Stands at the first record of the table whose key is not smaller, or at the end. */
    method Seek(k: Key)
      requires Valid()
      modifies this
      ensures Valid()
      ensures valid ==>
          next > 0 && FirstNotSmaller(v.flat, next - 1, k) && next - 1 < |v.flat| && entry == v.flat[next - 1]
      ensures !valid ==> FirstNotSmaller(v.flat, |v.flat|, k) && next == |v.flat|
    {
      Ends(v);
      if |blocks| == 0 {
        valid := false;
        return;
      }
      var target := Target(k);
      var b: nat := target;
      while b < |blocks|
        invariant Valid() && target <= b <= |blocks| && AllSmaller(v.flat, v.starts[b], k)
        invariant b == |blocks| ==> next == v.starts[b]
      {
        LoadBlock(b);
        var found := SeekInBlock(k);
        if found {
          valid := true;
          return;
        }
        b := b + 1;
      }
      valid := false;
    }

    /** The block to start in. */
    method Target(k: Key) returns (target: nat)
      requires Valid() && |blocks| > 0
      ensures target < |blocks| && AllSmaller(v.flat, v.starts[target], k)
    {
      assert ViewPart(CTable, v) && ViewPart(CLaid, v);
      Ascending(blocks, v.runs, v.flat);
      var idx := FindBlock(blocks, k);
      target := if idx < 0 then 0 else idx;
      BlocksBefore(v.flat, v.runs, v.starts, blocks, k, target);
    }
  }

  // ---------------------------------------------------------------- what a cursor yields

  /** The records from the first key that is not smaller on. */
  ghost predicate IsTail(es: Run, k: Key, tail: Run) {
    |tail| <= |es| && tail == es[|es| - |tail|..] && FirstNotSmaller(es, |es| - |tail|, k)
  }

  /** Moving on to the end yields the records from where the cursor stands, each once and in order. */
  method Drain(c: Cursor) returns (es: Run)
    requires c.Valid() && (if c.valid then 0 < c.next <= |c.v.flat| && c.entry == c.v.flat[c.next - 1]
        else c.next == |c.v.flat|)
    modifies c
    ensures |es| <= |c.v.flat| && |es| == |c.v.flat| - old(if c.valid then c.next - 1 else c.next)
    ensures es == c.v.flat[|c.v.flat| - |es|..]
  {
    es := [];
    ghost var flat, from := c.v.flat, if c.valid then c.next - 1 else c.next;
    while c.valid
      invariant c.Valid() && from + |es| <= |flat| && es == flat[from..from + |es|]
      invariant if c.valid then c.next == from + |es| + 1 <= |flat| && c.entry == flat[from + |es|]
          else from + |es| == |flat|
      decreases |flat| - |es|
    {
      es := es + [c.entry];
      var more := c.Next();
    }
  }

  /** Seeking and then moving on yields the rest of the table. */
  method ReadFrom(blocks: seq<Block>, k: Key, ghost runs: seq<Run>) returns (es: Run)
    requires AllHold(blocks, runs) && Small(runs) && Sorted(C.Flatten(runs)) && CutOk(C.Flatten(runs), runs)
    ensures IsTail(C.Flatten(runs), k, es)
  {
    var c := new Cursor(blocks, runs);
    c.Seek(k);
    es := Drain(c);
  }

  /** A tail from the empty key is everything. */
  lemma WholeTail(es: Run, tail: Run)
    requires IsTail(es, [], tail)
    ensures tail == es
  {
    var n := |es| - |tail|;
    assert n > 0 ==> Lt(es[0].cell.key, []);
    assert es[0..] == es;
  }

  /** `blocks` is the file of `run`. */
  ghost predicate FileOf(blocks: seq<Block>, run: Run) {
    Sorted(run) && AllHold(blocks, Cut(run)) && Small(Cut(run))
  }

  /** A compaction opens every table at the empty key: the merge is the merge of their runs. */
  method MergeFiles(files: seq<seq<Block>>, ghost runs: seq<Run>) returns (merged: Run)
    requires |files| == |runs| && forall i :: 0 <= i < |files| ==> FileOf(files[i], runs[i])
    ensures InOrder(merged) && multiset(merged) == Rest(runs, seq(|runs|, _ => 0))
  {
    var sources := ReadFiles(files, runs);
    forall i | 0 <= i < |runs| ensures InOrder(runs[i]) { assert FileOf(files[i], runs[i]); }
    merged := MergeVersions(sources);
  }

  method ReadFiles(files: seq<seq<Block>>, ghost runs: seq<Run>) returns (sources: seq<Run>)
    requires |files| == |runs| && forall i :: 0 <= i < |files| ==> FileOf(files[i], runs[i])
    ensures sources == runs
  {
    sources := [];
    for i := 0 to |files|
      invariant sources == runs[..i]
    {
      var es := ReadFile(files[i], runs[i]);
      sources := sources + [es];
    }
    assert runs[..|files|] == runs;
  }

  method ReadFile(file: seq<Block>, ghost run: Run) returns (es: Run)
    requires FileOf(file, run)
    ensures es == run
  {
    CutKeeps(run);
    es := ReadFrom(file, [], Cut(run));
    WholeTail(run, es);
  }
}
