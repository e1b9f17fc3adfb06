/** Tables on disk: records, blocks with restart points, and the index that finds a block. */
module SSTable {
  import opened Store
  import opened ByteOrder
  import opened Entries
  import opened Encoding
  import C = Compaction

  const HEADER := 25

  // ---------------------------------------------------------------- records

  /** A table keeps no value for a tombstone. */
  function Kept(e: Entry): Entry {
    Entry(e.cell, C.Erase(e.payload))
  }

  ghost predicate Fits(e: Entry) {
    && |e.cell.key| < Pow256(4) && |e.payload.value| < Pow256(4) && e.cell.version < Pow256(8)
         && Int64(e.payload.expiresAt)
  }

  function EncodeRecord(e: Entry): Bytes
    requires -TWO63 <= e.payload.expiresAt < TWO63
  {
    var v := Kept(e).payload.value;
    BigEndian(|e.cell.key|, 4) + BigEndian(|v|, 4) + [if e.payload.deleted then 1 else 0]
    + BigEndian(Bits64(e.payload.expiresAt), 8) + BigEndian(e.cell.version, 8) + e.cell.key + v
  }

  /** The record at `off`, and where the next one starts; none if it is cut short. */
  function ReadEntryAt(block: Bytes, off: nat): Option<(Entry, nat)> {
    if off + HEADER > |block| then None
    else
      var keyLen, valLen := FromBigEndian(block[off..off + 4]), FromBigEndian(block[off + 4..off + 8]);
      var deleted := block[off + 8] == 1;
      var expiresAt, version := Signed64(FromBigEndian(block[off + 9..off + 17])),
          FromBigEndian(block[off + 17..off + 25]);
      var cur := off + HEADER;
      if cur + keyLen > |block| then None
      else
        var key := block[cur..cur + keyLen];
        if !deleted && valLen > 0 then
          if cur + keyLen + valLen > |block| then None
          else Some((Entry(Cell(key, version), Payload(block[cur + keyLen..cur + keyLen + valLen], deleted, expiresAt)),
                     cur + keyLen + valLen))
        else Some((Entry(Cell(key, version), Payload([], deleted, expiresAt)), cur + keyLen))
  }

  lemma RecordLayout(e: Entry)
    requires Fits(e)
    ensures var r, k, v := EncodeRecord(e), e.cell.key, Kept(e).payload.value;
            && |r| == HEADER + |k| + |v| && r[0..4] == BigEndian(|k|, 4) && r[4..8] == BigEndian(|v|, 4)
            && (r[8] == 1 <==> e.payload.deleted) && r[9..17] == BigEndian(Bits64(e.payload.expiresAt), 8)
            && r[17..25] == BigEndian(e.cell.version, 8) && r[25..25 + |k|] == k && r[25 + |k|..25 + |k| + |v|] == v
  {}

  lemma RecordNotEmpty(e: Entry)
    requires Fits(e)
    ensures |EncodeRecord(e)| == Length(e) >= HEADER
  {
    RecordLayout(e);
  }

  function Length(e: Entry): nat {
    HEADER + |e.cell.key| + |Kept(e).payload.value|
  }

  datatype Lens = Lens

  ghost predicate Shows(lens: Lens, block: Bytes, off: nat, e: Entry) {
    Fits(e) && off + |EncodeRecord(e)| <= |block| && block[off..off + |EncodeRecord(e)|] == EncodeRecord(e)
  }

  /** The record of `e` stands at `off`. The quantifier keeps the layout out of proofs about runs. */
  ghost predicate StandsAt(block: Bytes, off: nat, e: Entry) {
    forall lens: Lens :: Shows(lens, block, off, e)
  }

  ghost predicate ReadsTo(lens: Lens, block: Bytes, off: nat, e: Entry, next: nat) {
    ReadEntryAt(block, off) == Some((e, next)) && next <= |block|
  }

  /** Reading at `off` gives `e`, and the next record starts at `next`. */
  ghost predicate ReadsAs(block: Bytes, off: nat, e: Entry, next: nat) {
    forall lens: Lens :: ReadsTo(lens, block, off, e, next)
  }

  lemma StandsAfter(a: Bytes, r: Bytes, all: Bytes, e: Entry)
    requires Fits(e) && r == EncodeRecord(e) && a + r <= all
    ensures StandsAt(all, |a|, e)
  {
    SliceOfPrefix(a, r, all);
    assert Shows(Lens, all, |a|, e);
  }

  /** A number written at place `i` of a record that stands at `off`. */
  lemma NumberAt(block: Bytes, off: nat, r: Bytes, i: nat, n: nat, width: nat)
    requires off + |r| <= |block| && block[off..off + |r|] == r && i + width <= |r|
    requires n < Pow256(width) && r[i..i + width] == BigEndian(n, width)
    ensures FromBigEndian(block[off + i..off + i + width]) == n
  {
    Slice(block, off, r, i, i + width);
    BigEndianRound(n, width);
  }

  lemma HeaderFields(block: Bytes, off: nat, e: Entry)
    requires Fits(e) && off + |EncodeRecord(e)| <= |block| && block[off..off + |EncodeRecord(e)|] == EncodeRecord(e)
    ensures FromBigEndian(block[off..off + 4]) == |e.cell.key|
    ensures FromBigEndian(block[off + 4..off + 8]) == |Kept(e).payload.value|
    ensures block[off + 8] == 1 <==> e.payload.deleted
    ensures Signed64(FromBigEndian(block[off + 9..off + 17])) == e.payload.expiresAt
    ensures FromBigEndian(block[off + 17..off + 25]) == e.cell.version
  {
    var r, v := EncodeRecord(e), Kept(e).payload.value;
    Widths();
    RecordLayout(e);
    NumberAt(block, off, r, 0, |e.cell.key|, 4);
    NumberAt(block, off, r, 4, |v|, 4);
    assert block[off + 8] == block[off..off + |r|][8];
    NumberAt(block, off, r, 9, Bits64(e.payload.expiresAt), 8);
    NumberAt(block, off, r, 17, e.cell.version, 8);
  }

  /** Reading where a record was written gives it back, without the value of a tombstone. */
  lemma RecordRound(block: Bytes, off: nat, e: Entry)
    requires StandsAt(block, off, e)
    ensures ReadsAs(block, off, Kept(e), off + Length(e))
  {
    assert Shows(Lens, block, off, e);
    HeaderFields(block, off, e);
    RecordParts(block, off, e);
    assert ReadsTo(Lens, block, off, Kept(e), off + Length(e));
  }

  /** The key and the value of a record in the block that holds it. */
  lemma RecordParts(block: Bytes, off: nat, e: Entry)
    requires Shows(Lens, block, off, e)
    ensures var k, v := e.cell.key, Kept(e).payload.value;
            && off + HEADER + |k| + |v| == off + Length(e) <= |block|
            && block[off + HEADER..off + HEADER + |k|] == k
            && block[off + HEADER + |k|..off + HEADER + |k| + |v|] == v
  {
    var r, k, v := EncodeRecord(e), e.cell.key, Kept(e).payload.value;
    RecordLayout(e);
    Slice(block, off, r, 25, 25 + |k|);
    Slice(block, off, r, 25 + |k|, 25 + |k| + |v|);
  }

  // ---------------------------------------------------------------- runs of records

  ghost predicate AllFit(es: Run) {
    forall i :: 0 <= i < |es| ==> Fits(es[i])
  }

  function EncodeAll(es: Run): Bytes
    requires forall i :: 0 <= i < |es| ==> -TWO63 <= es[i].payload.expiresAt < TWO63
  {
    if es == [] then [] else EncodeAll(es[..|es| - 1]) + EncodeRecord(es[|es| - 1])
  }

  /** Where record `i` starts. */
  function Offset(es: Run, i: nat): nat
    requires i <= |es| && forall i :: 0 <= i < |es| ==> -TWO63 <= es[i].payload.expiresAt < TWO63
  {
    |EncodeAll(es[..i])|
  }

  lemma {:induction false} EncodedPrefix(es: Run, i: nat)
    requires AllFit(es) && i <= |es|
    ensures EncodeAll(es[..i]) <= EncodeAll(es)
  {
    if i == |es| {
      assert es[..i] == es;
    } else {
      var front := es[..|es| - 1];
      assert front[..i] == es[..i];
      EncodedPrefix(front, i);
    }
  }

  lemma OffsetStep(es: Run, i: nat)
    requires AllFit(es) && i < |es|
    ensures EncodeAll(es[..i + 1]) == EncodeAll(es[..i]) + EncodeRecord(es[i])
  {
    assert es[..i + 1][..i] == es[..i];
  }

  lemma SliceOfPrefix(a: Bytes, r: Bytes, all: Bytes)
    requires a + r <= all
    ensures |a| + |r| <= |all| && all[|a|..|a| + |r|] == r
  {}

  lemma EncodedAt(es: Run, i: nat)
    requires AllFit(es) && i < |es|
    ensures Offset(es, i + 1) == Offset(es, i) + Length(es[i])
    ensures StandsAt(EncodeAll(es), Offset(es, i), es[i])
  {
    var a, r, all := EncodeAll(es[..i]), EncodeRecord(es[i]), EncodeAll(es);
    EncodedPrefix(es, i + 1);
    OffsetStep(es, i);
    RecordNotEmpty(es[i]);
    StandsAfter(a, r, all, es[i]);
  }

  /** The records of a run are found at their offsets, one after the other. */
  lemma ReadRun(es: Run, i: nat)
    requires AllFit(es) && i < |es|
    ensures ReadsAs(EncodeAll(es), Offset(es, i), Kept(es[i]), Offset(es, i + 1))
    ensures Offset(es, i) < Offset(es, i + 1) <= |EncodeAll(es)|
  {
    EncodedAt(es, i);
    ReadPlaced(EncodeAll(es), Offset(es, i), es[i], Offset(es, i + 1));
  }

  lemma ReadPlaced(block: Bytes, off: nat, e: Entry, next: nat)
    requires StandsAt(block, off, e) && next == off + Length(e)
    ensures ReadsAs(block, off, Kept(e), next) && off < next <= |block|
  {
    RecordRound(block, off, e);
    ReadsWithin(block, off, Kept(e), next);
  }

  lemma ReadsWithin(block: Bytes, off: nat, e: Entry, next: nat)
    requires ReadsAs(block, off, e, next)
    ensures next <= |block| && KeyIs(block, off, e.cell.key)
  {
    assert ReadsTo(Lens, block, off, e, next);
    assert KeyReads(Lens, block, off, e.cell.key);
  }

  /** The key of the record at `off`. */
  function KeyAt(data: Bytes, off: nat): Option<Key> {
    if off + HEADER > |data| then None
    else
      var keyLen := FromBigEndian(data[off..off + 4]);
      if off + HEADER + keyLen > |data| then None else Some(data[off + HEADER..off + HEADER + keyLen])
  }

  // ---------------------------------------------------------------- looking for a version

  /** `bound` is absent for a lookup of the newest version. */
  predicate Visible(e: Entry, k: Key, bound: Option<nat>) {
    e.cell.key == k && (bound.None? || e.cell.version <= bound.value)
  }

  /** What a lookup should find: the first visible version in storage order. */
  function Pick(es: Run, k: Key, bound: Option<nat>): Option<Entry> {
    if es == [] then None
    else if Pick(es[..|es| - 1], k, bound).Some? then Pick(es[..|es| - 1], k, bound)
    else if Visible(es[|es| - 1], k, bound) then Some(es[|es| - 1])
    else None
  }

  ghost predicate NoneVisible(es: Run, k: Key, bound: Option<nat>) {
    forall i :: 0 <= i < |es| ==> !Visible(es[i], k, bound)
  }

  lemma {:induction false} PickNone(es: Run, k: Key, bound: Option<nat>)
    ensures Pick(es, k, bound).None? <==> NoneVisible(es, k, bound)
  {
    if es != [] { PickNone(es[..|es| - 1], k, bound); }
  }

  lemma {:induction false} PickIn(es: Run, k: Key, bound: Option<nat>)
    requires Pick(es, k, bound).Some?
    ensures Pick(es, k, bound).value in es && Visible(Pick(es, k, bound).value, k, bound)
  {
    if Pick(es[..|es| - 1], k, bound).Some? { PickIn(es[..|es| - 1], k, bound); }
  }

  /** In a sorted run the first visible version is the newest. */
  lemma {:induction false} PickNewest(es: Run, k: Key, bound: Option<nat>, e: Entry)
    requires Sorted(es) && e in es && Visible(e, k, bound)
    ensures Pick(es, k, bound).Some? && e.cell.version <= Pick(es, k, bound).value.cell.version
  {
    var front, last := es[..|es| - 1], es[|es| - 1];
    PickNone(front, k, bound);
    if e in front {
      PickNewest(front, k, bound, e);
    } else {
      assert e == last;
      if Pick(front, k, bound).Some? {
        PickIn(front, k, bound);
        var f := Pick(front, k, bound).value;
        var i :| 0 <= i < |front| && front[i] == f;
        assert Before(es[i].cell, es[|es| - 1].cell);
        LtIrreflexive(k);
      }
    }
  }

  lemma {:induction false} PickConcat(a: Run, b: Run, k: Key, bound: Option<nat>)
    ensures Pick(a + b, k, bound) == if Pick(a, k, bound).Some? then Pick(a, k, bound) else Pick(b, k, bound)
  {
    if b == [] {
      assert a + b == a;
    } else {
      assert (a + b)[..|a + b| - 1] == a + b[..|b| - 1];
      PickConcat(a, b[..|b| - 1], k, bound);
    }
  }

  function KeptRun(es: Run): Run {
    seq(|es|, i requires 0 <= i < |es| => Kept(es[i]))
  }

  /** The better of the best record so far and one more. */
  function Better(best: Option<Entry>, e: Entry, k: Key, bound: Option<nat>): Option<Entry> {
    if Visible(e, k, bound) && (best.None? || e.cell.version > best.value.cell.version) then Some(e) else best
  }

  /** One more record of a scan from record `from` on. */
  lemma ScanStep(es: Run, from: nat, i: nat, k: Key, bound: Option<nat>)
    requires Sorted(es) && from <= i < |es|
    ensures Pick(es[from..i + 1], k, bound) == Better(Pick(es[from..i], k, bound), es[i], k, bound)
  {
    var part := es[from..i + 1];
    assert part[..|part| - 1] == es[from..i];
    if Visible(es[i], k, bound) && Pick(es[from..i], k, bound).Some? {
      assert Sorted(part);
      PickNewest(part, k, bound, es[i]);
    }
  }

  // ---------------------------------------------------------------- scanning a block

  /** A run as a block holds it. */
  ghost predicate Stored(es: Run) {
    AllFit(es) && Sorted(es) && forall i :: 0 <= i < |es| ==> Kept(es[i]) == es[i]
  }

  lemma OffsetZero(es: Run)
    requires AllFit(es)
    ensures Offset(es, 0) == 0 && Offset(es, |es|) == |EncodeAll(es)|
  {
    assert es[..0] == [] && es[..|es|] == es;
  }

  method NextRecord(data: Bytes, off: nat, ghost es: Run, ghost i: nat) returns (e: Entry, next: nat)
    requires Stored(es) && data == EncodeAll(es) && i < |es| && off == Offset(es, i)
    ensures e == es[i] && next == Offset(es, i + 1)
  {
    ReadRun(es, i);
    e, next := ReadOne(data, off, es[i], Offset(es, i + 1));
  }

  method ReadOne(data: Bytes, off: nat, ghost entry: Entry, ghost end: nat) returns (e: Entry, next: nat)
    requires ReadsAs(data, off, entry, end)
    ensures e == entry && next == end
  {
    assert ReadsTo(Lens, data, off, entry, end);
    var r := ReadEntryAt(data, off);
    return r.value.0, r.value.1;
  }

  /** The scan that looks at every record of a block. */
  method ScanLinear(data: Bytes, k: Key, bound: Option<nat>, ghost es: Run) returns (best: Option<Entry>)
    requires Stored(es) && data == EncodeAll(es)
    ensures best == Pick(es, k, bound)
  {
    best := None;
    var off := 0;
    ghost var i := 0;
    OffsetZero(es);
    while off < |data|
      invariant 0 <= i <= |es| && off == Offset(es, i) && best == Pick(es[0..i], k, bound)
      decreases |es| - i
    {
      ScanStep(es, 0, i, k, bound);
      var e, next := NextRecord(data, off, es, i);
      best := Better(best, e, k, bound);
      off := next;
      i := i + 1;
    }
    assert es[0..|es|] == es;
    OffsetMonotone(es, i);
  }

  lemma OffsetMonotone(es: Run, i: nat)
    requires AllFit(es) && i <= |es| && Offset(es, i) >= |EncodeAll(es)|
    ensures i == |es|
  {
    if i < |es| { ReadRun(es, i); }
  }

  // ---------------------------------------------------------------- restart points

  const INTERVAL := 16

  /** A restart point every sixteen records. */
  ghost predicate Restarts(es: Run, offsets: seq<nat>) {
    && AllFit(es) && |offsets| > 0 && (|offsets| - 1) * INTERVAL < |es| <= |offsets| * INTERVAL
    && forall j :: 0 <= j < |offsets| ==> offsets[j] == Offset(es, j * INTERVAL)
  }

  function RestartKeys(es: Run, n: nat): seq<Key>
    requires n == 0 || (n - 1) * INTERVAL < |es|
  {
    seq(n, j requires 0 <= j < n => es[j * INTERVAL].cell.key)
  }

  /** The search among the restart points: an equal key is taken, and the search goes on below it. */
  function Probe(keys: seq<Key>, k: Key, lo: int, hi: int, idx: int): int
    requires 0 <= lo && hi < |keys|
    decreases hi - lo + 1
  {
    if lo > hi then idx
    else
      var mid := (lo + hi) / 2;
      if Lt(keys[mid], k) then Probe(keys, k, mid + 1, hi, mid)
      else if keys[mid] == k then Probe(keys, k, lo, mid - 1, mid)
      else Probe(keys, k, lo, mid - 1, idx)
  }

  ghost predicate NotDecreasing(keys: seq<Key>) {
    forall i, j :: 0 <= i < j < |keys| ==> !Lt(keys[j], keys[i])
  }

  /** The search ends at the last smaller restart key, or at the first equal one. */
  ghost predicate RestartFor(keys: seq<Key>, k: Key, idx: int) {
    && -1 <= idx < |keys|
    && (idx == -1 ==> forall j :: 0 <= j < |keys| ==> Lt(k, keys[j]))
    && (idx >= 0 ==> LastSmaller(keys, k, idx) || FirstEqual(keys, k, idx))
  }

  ghost predicate LastSmaller(keys: seq<Key>, k: Key, idx: nat) {
    idx < |keys| && Lt(keys[idx], k) && forall j :: idx < j < |keys| ==> !Lt(keys[j], k)
  }

  ghost predicate FirstEqual(keys: seq<Key>, k: Key, idx: nat) {
    idx < |keys| && keys[idx] == k && forall j :: 0 <= j < idx ==> Lt(keys[j], k)
  }

  ghost predicate Probing(keys: seq<Key>, k: Key, lo: int, hi: int, idx: int) {
    && 0 <= lo <= hi + 1 <= |keys| && -1 <= idx < |keys|
    && (forall j :: 0 <= j < lo ==> Lt(keys[j], k)) && (forall j :: hi < j < |keys| ==> !Lt(keys[j], k))
    && (idx == -1 ==> lo == 0 && forall j :: hi < j < |keys| ==> Lt(k, keys[j]))
    && (idx >= 0 ==> idx == lo - 1 || (idx == hi + 1 && keys[idx] == k))
  }

  lemma {:induction false} ProbeFinds(keys: seq<Key>, k: Key, lo: int, hi: int, idx: int)
    requires NotDecreasing(keys) && Probing(keys, k, lo, hi, idx)
    ensures RestartFor(keys, k, Probe(keys, k, lo, hi, idx))
    decreases hi - lo + 1
  {
    if lo <= hi {
      var mid := (lo + hi) / 2;
      LtTotal(keys[mid], k);
      LtIrreflexive(k);
      if Lt(keys[mid], k) {
        ProbeBelow(keys, k, lo, hi, idx, mid);
        ProbeFinds(keys, k, mid + 1, hi, mid);
      } else {
        NotSmallerFrom(keys, k, mid);
        if keys[mid] == k {
          ProbeFinds(keys, k, lo, mid - 1, mid);
        } else {
          ProbeGreater(keys, k, lo, hi, idx, mid);
          ProbeFinds(keys, k, lo, mid - 1, idx);
        }
      }
    }
  }

  lemma ProbeBelow(keys: seq<Key>, k: Key, lo: int, hi: int, idx: int, mid: int)
    requires NotDecreasing(keys) && Probing(keys, k, lo, hi, idx) && lo <= mid <= hi && Lt(keys[mid], k)
    ensures Probing(keys, k, mid + 1, hi, mid)
  {
    forall j | 0 <= j < mid + 1 ensures Lt(keys[j], k) { SmallerBefore(keys, k, j, mid); }
  }

  lemma NotSmallerFrom(keys: seq<Key>, k: Key, mid: nat)
    requires NotDecreasing(keys) && mid < |keys| && !Lt(keys[mid], k)
    ensures forall j :: mid - 1 < j < |keys| ==> !Lt(keys[j], k)
  {
    forall j | mid - 1 < j < |keys| ensures !Lt(keys[j], k) {
      if j > mid { NotLtTrans(keys[j], keys[mid], k); }
    }
  }

  lemma SmallerBefore(keys: seq<Key>, k: Key, j: int, mid: int)
    requires NotDecreasing(keys) && 0 <= j <= mid < |keys| && Lt(keys[mid], k)
    ensures Lt(keys[j], k)
  {
    if j < mid && !Lt(keys[j], k) { NotLtTrans(keys[mid], keys[j], k); }
  }

  lemma ProbeGreater(keys: seq<Key>, k: Key, lo: int, hi: int, idx: int, mid: int)
    requires NotDecreasing(keys) && Probing(keys, k, lo, hi, idx) && lo <= mid <= hi && Lt(k, keys[mid])
    requires forall j :: mid - 1 < j < |keys| ==> !Lt(keys[j], k)
    ensures Probing(keys, k, lo, mid - 1, idx)
  {
    forall j | mid - 1 < j < |keys| ensures Lt(k, keys[j]) {
      if j > mid { LtNotLtTrans(k, keys[mid], keys[j]); }
    }
  }

  lemma RestartKeysSorted(es: Run, n: nat)
    requires Sorted(es) && (n == 0 || (n - 1) * INTERVAL < |es|)
    ensures NotDecreasing(RestartKeys(es, n))
  {
    var keys := RestartKeys(es, n);
    forall i, j | 0 <= i < j < |keys| ensures !Lt(keys[j], keys[i]) {
      assert Before(es[i * INTERVAL].cell, es[j * INTERVAL].cell);
      LtIrreflexive(keys[i]);
      if Lt(keys[i], keys[j]) { LtAsym(keys[i], keys[j]); }
    }
  }

  ghost predicate KeyReads(lens: Lens, data: Bytes, off: nat, key: Key) {
    KeyAt(data, off) == Some(key)
  }

  ghost predicate KeyIs(data: Bytes, off: nat, key: Key) {
    forall lens: Lens :: KeyReads(lens, data, off, key)
  }

  lemma RestartRecord(data: Bytes, es: Run, offsets: seq<nat>, j: nat)
    requires Restarts(es, offsets) && j < |offsets| && data == EncodeAll(es)
    ensures KeyIs(data, offsets[j], RestartKeys(es, |offsets|)[j])
  {
    assert j * INTERVAL <= (|offsets| - 1) * INTERVAL;
    ReadRun(es, j * INTERVAL);
    ReadsWithin(data, offsets[j], Kept(es[j * INTERVAL]), Offset(es, j * INTERVAL + 1));
  }

  method ReadKey(data: Bytes, off: nat, ghost key: Key) returns (r: Option<Key>)
    requires KeyIs(data, off, key)
    ensures r == Some(key)
  {
    assert KeyReads(Lens, data, off, key);
    r := KeyAt(data, off);
  }

  lemma ProbeStep(keys: seq<Key>, k: Key, lo: int, hi: int, idx: int)
    requires 0 <= lo <= hi < |keys|
    ensures var mid := (lo + hi) / 2;
            Probe(keys, k, lo, hi, idx) ==
              if Lt(keys[mid], k) then Probe(keys, k, mid + 1, hi, mid)
              else if keys[mid] == k then Probe(keys, k, lo, mid - 1, mid)
              else Probe(keys, k, lo, mid - 1, idx)
  {}

  /** The search among the restart points of a block. */
  method FindRestart(data: Bytes, offsets: seq<nat>, k: Key, ghost es: Run) returns (idx: int)
    requires Restarts(es, offsets) && data == EncodeAll(es)
    ensures idx == Probe(RestartKeys(es, |offsets|), k, 0, |offsets| - 1, -1)
  {
    ghost var keys := RestartKeys(es, |offsets|);
    forall j | 0 <= j < |offsets| ensures KeyIs(data, offsets[j], keys[j]) { RestartRecord(data, es, offsets, j); }
    idx := SearchRestarts(data, offsets, k, keys);
  }

  method SearchRestarts(data: Bytes, offsets: seq<nat>, k: Key, ghost keys: seq<Key>) returns (idx: int)
    requires |keys| == |offsets| && forall j :: 0 <= j < |offsets| ==> KeyIs(data, offsets[j], keys[j])
    ensures idx == Probe(keys, k, 0, |offsets| - 1, -1)
  {
    var lo, hi := 0, |offsets| - 1;
    idx := -1;
    while lo <= hi
      invariant 0 <= lo <= hi + 1 <= |offsets|
      invariant Probe(keys, k, lo, hi, idx) == Probe(keys, k, 0, |offsets| - 1, -1)
      decreases hi - lo + 1
    {
      ProbeStep(keys, k, lo, hi, idx);
      var mid := (lo + hi) / 2;
      var key := ReadKey(data, offsets[mid], keys[mid]);
      if Lt(key.value, k) { idx, lo := mid, mid + 1; }
      else if key.value == k { idx, hi := mid, mid - 1; }
      else { hi := mid - 1; }
    }
  }

  /** The record the restart search starts to scan from; none if it gives up at once. */
  function ScanStart(es: Run, n: nat, k: Key): Option<nat>
    requires n > 0 && (n - 1) * INTERVAL < |es|
  {
    var idx := Probe(RestartKeys(es, n), k, 0, n - 1, -1);
    if 0 <= idx < n then Some(idx * INTERVAL) else None
  }

  lemma ScanStartIn(es: Run, n: nat, k: Key)
    requires Sorted(es) && n > 0 && (n - 1) * INTERVAL < |es|
    ensures RestartFor(RestartKeys(es, n), k, Probe(RestartKeys(es, n), k, 0, n - 1, -1))
    ensures ScanStart(es, n, k).Some? ==> ScanStart(es, n, k).value < |es|
  {
    RestartKeysSorted(es, n);
    ProbeFinds(RestartKeys(es, n), k, 0, n - 1, -1);
    var idx := Probe(RestartKeys(es, n), k, 0, n - 1, -1);
    if 0 <= idx { assert idx * INTERVAL <= (n - 1) * INTERVAL; }
  }

  /** What the restart search returns. */
  function RestartPick(es: Run, n: nat, k: Key, bound: Option<nat>): Option<Entry>
    requires Sorted(es) && n > 0 && (n - 1) * INTERVAL < |es|
  {
    ScanStartIn(es, n, k);
    var start := ScanStart(es, n, k);
    if start.None? then None else Pick(es[start.value..], k, bound)
  }

  /** Behind a larger key there is nothing to find. */
  lemma NothingLater(es: Run, i: nat, k: Key, bound: Option<nat>)
    requires Sorted(es) && i < |es| && Lt(k, es[i].cell.key)
    ensures NoneVisible(es[i..], k, bound)
  {
    forall j | i <= j < |es| ensures es[j].cell.key != k {
      if j > i {
        assert Before(es[i].cell, es[j].cell);
        LtIrreflexive(k);
        if es[j].cell.key == k { LtAsym(k, es[i].cell.key); }
      } else {
        LtIrreflexive(k);
      }
    }
  }

  /** The scan from a restart point. */
  method ScanRestart(data: Bytes, offsets: seq<nat>, k: Key, bound: Option<nat>, ghost es: Run)
    returns (best: Option<Entry>)
    requires Stored(es) && Restarts(es, offsets) && data == EncodeAll(es)
    ensures best == RestartPick(es, |offsets|, k, bound)
  {
    var idx := FindRestart(data, offsets, k, es);
    ScanStartIn(es, |offsets|, k);
    if idx == -1 { return None; }
    best := ScanOn(data, offsets[idx], k, bound, es, idx * INTERVAL);
  }

  /** Scans from record `start` to the first larger key. */
  method ScanOn(data: Bytes, from: nat, k: Key, bound: Option<nat>, ghost es: Run, ghost start: nat)
    returns (best: Option<Entry>)
    requires Stored(es) && data == EncodeAll(es) && start < |es| && from == Offset(es, start)
    ensures best == Pick(es[start..], k, bound)
  {
    best := None;
    var off := from;
    ghost var i := start;
    assert es[start..start] == [];
    OffsetZero(es);
    while off < |data|
      invariant start <= i <= |es| && off == Offset(es, i) && best == Pick(es[start..i], k, bound)
      decreases |es| - i
    {
      ScanStep(es, start, i, k, bound);
      var e, next := NextRecord(data, off, es, i);
      best := Better(best, e, k, bound);
      if Lt(k, e.cell.key) {
        StopAtLarger(es, start, i, k, bound);
        return;
      }
      off := next;
      i := i + 1;
    }
    OffsetMonotone(es, i);
    assert es[start..|es|] == es[start..];
  }

  lemma StopAtLarger(es: Run, start: nat, i: nat, k: Key, bound: Option<nat>)
    requires Sorted(es) && start <= i < |es| && Lt(k, es[i].cell.key)
    ensures Pick(es[start..i + 1], k, bound) == Pick(es[start..], k, bound)
  {
    assert es[start..] == es[start..i + 1] + es[i + 1..];
    PickConcat(es[start..i + 1], es[i + 1..], k, bound);
    NothingLater(es, i, k, bound);
    var rest := es[i + 1..];
    forall j | 0 <= j < |rest| ensures !Visible(rest[j], k, bound) { assert rest[j] == es[i..][j + 1]; }
    PickNone(rest, k, bound);
  }

  // ---------------------------------------------------------------- exactly when the two scans agree

  /** Before the last smaller restart point there is nothing to find. */
  lemma NothingBefore(es: Run, i: nat, k: Key, bound: Option<nat>)
    requires Sorted(es) && i < |es| && Lt(es[i].cell.key, k)
    ensures NoneVisible(es[..i], k, bound)
  {
    forall j | 0 <= j < i ensures es[j].cell.key != k {
      assert Before(es[j].cell, es[i].cell);
      LtIrreflexive(k);
      LtAsym(es[i].cell.key, k);
    }
  }

  lemma PickSkips(es: Run, i: nat, k: Key, bound: Option<nat>)
    requires Sorted(es) && i <= |es|
    ensures Pick(es, k, bound) == Pick(es[i..], k, bound) <==> NoneVisible(es[..i], k, bound)
  {
    assert es == es[..i] + es[i..];
    PickConcat(es[..i], es[i..], k, bound);
    PickNone(es[..i], k, bound);
    if Pick(es[..i], k, bound).Some? && Pick(es[i..], k, bound).Some? {
      PickIn(es[..i], k, bound);
      PickIn(es[i..], k, bound);
      var e, f := Pick(es[..i], k, bound).value, Pick(es[i..], k, bound).value;
      var a :| 0 <= a < i && es[a] == e;
      var b :| i <= b < |es| && es[b] == f;
      assert Before(es[a].cell, es[b].cell);
      LtIrreflexive(k);
    }
  }

  /** Below smaller keys only, the search ends at the last of them. */
  lemma {:induction false} ProbeSmaller(keys: seq<Key>, k: Key, lo: int, hi: int, idx: int)
    requires 0 <= lo <= hi < |keys| && forall i :: lo <= i <= hi ==> Lt(keys[i], k)
    ensures Probe(keys, k, lo, hi, idx) == hi
    decreases hi - lo
  {
    var mid := (lo + hi) / 2;
    if mid < hi { ProbeSmaller(keys, k, mid + 1, hi, mid); }
  }

  /** Where the key starts, the search ends at its first place. */
  lemma {:induction false} ProbeNotSmaller(keys: seq<Key>, k: Key, lo: int, hi: int, idx: int)
    requires 0 <= lo <= hi < |keys| && keys[lo] == k && forall i :: lo <= i <= hi ==> !Lt(keys[i], k)
    ensures Probe(keys, k, lo, hi, idx) == lo
    decreases hi - lo
  {
    var mid := (lo + hi) / 2;
    if lo < mid { ProbeNotSmaller(keys, k, lo, mid - 1, if keys[mid] == k then mid else idx); }
  }

  /** A binary search for place `j` looks at `j` before it looks at `j - 1`. */
  ghost predicate EqualFirst(lo: int, hi: int, j: int)
    decreases hi - lo + 1
  {
    lo <= hi &&
    var mid := (lo + hi) / 2;
    mid == j || (mid != j - 1 && if mid < j then EqualFirst(mid + 1, hi, j) else EqualFirst(lo, mid - 1, j))
  }

  /** The search ends before the first equal restart point if it looks there last, and at it if not. */
  lemma {:induction false} ProbeLands(keys: seq<Key>, k: Key, lo: int, hi: int, idx: int, j: int)
    requires NotDecreasing(keys) && 0 <= lo < j <= hi < |keys| && FirstEqual(keys, k, j)
    ensures Probe(keys, k, lo, hi, idx) == if EqualFirst(lo, hi, j) then j - 1 else j
    decreases hi - lo + 1
  {
    var mid := (lo + hi) / 2;
    LtIrreflexive(k);
    forall i | j <= i < |keys| ensures !Lt(keys[i], k) {
      if i > j { NotLtTrans(keys[i], keys[j], k); }
    }
    if mid == j {
      ProbeSmaller(keys, k, lo, j - 1, j);
    } else if mid == j - 1 {
      ProbeNotSmaller(keys, k, j, hi, j - 1);
    } else if mid < j {
      ProbeLands(keys, k, mid + 1, hi, mid, j);
    } else {
      ProbeLands(keys, k, lo, mid - 1, if keys[mid] == k then mid else idx, j);
    }
  }

  /** The block has `n` restart points, `j` is the first at key `k`, the search settles there, and the
      record just before it is a version of `k` that the lookup may see. */
  ghost predicate CrossesAt(es: Run, n: nat, k: Key, bound: Option<nat>, j: nat)
    requires n > 0 && (n - 1) * INTERVAL < |es|
  {
    && 0 < j < n && FirstEqual(RestartKeys(es, n), k, j) && !EqualFirst(0, n - 1, j)
    && j * INTERVAL <= (n - 1) * INTERVAL && Visible(es[j * INTERVAL - 1], k, bound)
  }

  ghost predicate Crosses(es: Run, n: nat, k: Key, bound: Option<nat>)
    requires n > 0 && (n - 1) * INTERVAL < |es|
  {
    exists j :: CrossesAt(es, n, k, bound, j)
  }

  /** Before the first restart point at `k` its visible versions, if any, end just before it. */
  lemma VisibleBefore(es: Run, i: nat, k: Key, bound: Option<nat>)
    requires Sorted(es) && 0 < i < |es| && es[i].cell.key == k
    ensures NoneVisible(es[..i], k, bound) <==> !Visible(es[i - 1], k, bound)
  {
    if NoneVisible(es[..i], k, bound) {
      assert es[..i][i - 1] == es[i - 1];
    } else {
      var m :| 0 <= m < i && Visible(es[..i][m], k, bound);
      if m < i - 1 {
        assert Before(es[m].cell, es[i - 1].cell) && Before(es[i - 1].cell, es[i].cell);
        LtIrreflexive(k);
        if Lt(k, es[i - 1].cell.key) { LtAsym(k, es[i - 1].cell.key); }
      }
    }
  }

  /** Where the scan starts, told from the restart points alone. */
  lemma StartIs(es: Run, n: nat, k: Key, j: nat)
    requires Sorted(es) && n > 0 && (n - 1) * INTERVAL < |es| && FirstEqual(RestartKeys(es, n), k, j)
    ensures Probe(RestartKeys(es, n), k, 0, n - 1, -1) == if j > 0 && EqualFirst(0, n - 1, j) then j - 1 else j
  {
    var keys := RestartKeys(es, n);
    RestartKeysSorted(es, n);
    if j == 0 {
      LtIrreflexive(k);
      forall i | 0 <= i < n ensures !Lt(keys[i], k) {
        if i > 0 { NotLtTrans(keys[i], keys[0], k); }
      }
      ProbeNotSmaller(keys, k, 0, n - 1, -1);
    } else {
      ProbeLands(keys, k, 0, n - 1, -1, j);
    }
  }

  /** A start at a restart point leaves out nothing, unless the versions of the key cross it. */
  lemma StartsRight(es: Run, n: nat, k: Key, bound: Option<nat>, idx: nat)
    requires Sorted(es) && n > 0 && (n - 1) * INTERVAL < |es| && idx < n && idx * INTERVAL < |es|
    requires idx == Probe(RestartKeys(es, n), k, 0, n - 1, -1) && RestartFor(RestartKeys(es, n), k, idx)
    ensures NoneVisible(es[..idx * INTERVAL], k, bound) <==> !Crosses(es, n, k, bound)
  {
    var keys := RestartKeys(es, n);
    if LastSmaller(keys, k, idx) {
      NothingBefore(es, idx * INTERVAL, k, bound);
      forall j: nat ensures !CrossesAt(es, n, k, bound, j) {
        if FirstEqual(keys, k, j) { StartIs(es, n, k, j); EqualNotSmaller(keys, k, idx, j); }
      }
    } else {
      StartIs(es, n, k, idx);
      forall j | FirstEqual(keys, k, j) ensures j == idx { OneFirst(keys, k, idx, j); }
      if idx > 0 { VisibleBefore(es, idx * INTERVAL, k, bound); }
      assert CrossesAt(es, n, k, bound, idx) <==> idx > 0 && Visible(es[idx * INTERVAL - 1], k, bound);
    }
  }

  lemma EqualNotSmaller(keys: seq<Key>, k: Key, idx: nat, j: nat)
    requires LastSmaller(keys, k, idx) && FirstEqual(keys, k, j)
    ensures idx != j
  {
    LtIrreflexive(k);
  }

  lemma OneFirst(keys: seq<Key>, k: Key, i: nat, j: nat)
    requires FirstEqual(keys, k, i) && FirstEqual(keys, k, j)
    ensures i == j
  {
    LtIrreflexive(k);
  }

  /** The restart search returns what the linear scan returns, unless and only unless the versions of the
      key cross its first restart point, the search looks at that one last, and the version just before
      it is visible. */
  lemma RestartAgreesIff(es: Run, n: nat, k: Key, bound: Option<nat>)
    requires Sorted(es) && n > 0 && (n - 1) * INTERVAL < |es|
    ensures RestartPick(es, n, k, bound) == Pick(es, k, bound) <==> !Crosses(es, n, k, bound)
  {
    ScanStartIn(es, n, k);
    var keys := RestartKeys(es, n);
    var idx := Probe(keys, k, 0, n - 1, -1);
    if idx >= 0 {
      PickSkips(es, idx * INTERVAL, k, bound);
      StartsRight(es, n, k, bound, idx);
    } else {
      assert keys[0] == es[0].cell.key;
      NothingLater(es, 0, k, bound);
      assert es[0..] == es;
      PickNone(es, k, bound);
      forall j: nat ensures !CrossesAt(es, n, k, bound, j) {
        if 0 < j < n { LtIrreflexive(k); }
      }
    }
  }

  /** What the restart search returns is a version in the block that the lookup may see. */
  lemma RestartPickIn(es: Run, n: nat, k: Key, bound: Option<nat>)
    requires Sorted(es) && n > 0 && (n - 1) * INTERVAL < |es| && RestartPick(es, n, k, bound).Some?
    ensures RestartPick(es, n, k, bound).value in es && Visible(RestartPick(es, n, k, bound).value, k, bound)
  {
    ScanStartIn(es, n, k);
    PickIn(es[ScanStart(es, n, k).value..], k, bound);
  }

  /** Where the versions cross a restart point the search returns one of the older ones. */
  lemma CrossingFinds(es: Run, n: nat, k: Key, bound: Option<nat>)
    requires Sorted(es) && n > 0 && (n - 1) * INTERVAL < |es| && Crosses(es, n, k, bound)
    ensures RestartPick(es, n, k, bound).Some?
  {
    var j: nat :| CrossesAt(es, n, k, bound, j);
    StartIs(es, n, k, j);
    var i := j * INTERVAL;
    assert es[i].cell.key == k by { assert RestartKeys(es, n)[j] == es[i].cell.key; }
    assert Visible(es[i], k, bound) by {
      assert Before(es[i - 1].cell, es[i].cell);
      LtIrreflexive(k);
    }
    assert es[i..][0] == es[i];
    PickNone(es[i..], k, bound);
  }

  // -------- a block whose newest version is missed

  /** Fifteen small keys, and then a key with two versions, the older one at the second restart point. */
  function CrossingEntry(i: nat): Entry
    requires i < 17
  {
    if i < 15 then Entry(Cell([i], i + 2), Payload([0], false, 0))
    else if i == 15 then Entry(Cell([15], 18), Payload([2], false, 0))
    else Entry(Cell([15], 17), Payload([1], false, 0))
  }

  function Crossing(): (es: Run)
    ensures |es| == 17
  {
    seq(17, i requires 0 <= i < 17 => CrossingEntry(i))
  }

  lemma CrossingStored()
    ensures Stored(Crossing())
  {
    var es := Crossing();
    Widths();
    forall i, j | 0 <= i < j < |es| ensures Before(es[i].cell, es[j].cell) {
      OneByte(if i < 15 then i else 15, if j < 15 then j else 15);
    }
  }

  /** The search settles at the second restart point. */
  lemma CrossingStart()
    ensures Sorted(Crossing()) && RestartKeys(Crossing(), 2) == [[0], [15]]
    ensures ScanStart(Crossing(), 2, [15]) == Some(16) && Crossing()[16..] == [CrossingEntry(16)]
  {
    CrossingStored();
    var k := [15];
    var keys := RestartKeys(Crossing(), 2);
    OneByte(0, 15);
    LtIrreflexive(k);
    assert keys == [[0], k];
    assert Probe(keys, k, 0, 1, -1) == Probe(keys, k, 1, 1, 0) == Probe(keys, k, 1, 0, 1) == 1;
  }

  /** The restart search returns version 17 of a key that has a version 18. */
  lemma CrossingMisses(bound: Option<nat>)
    requires bound.None? || bound.value >= 18
    ensures Stored(Crossing()) && Restarts(Crossing(), [0, Offset(Crossing(), 16)])
    ensures Pick(Crossing(), [15], bound) == Some(CrossingEntry(15))
    ensures RestartPick(Crossing(), 2, [15], bound) == Some(CrossingEntry(16))
  {
    CrossingStored();
    CrossingStart();
    var es, k := Crossing(), [15];
    OffsetZero(es);
    PickOne(CrossingEntry(16), k, bound);
    PickNewest(es, k, bound, es[15]);
    PickIn(es, k, bound);
    SecondVersion(Pick(es, k, bound).value);
  }

  lemma PickOne(e: Entry, k: Key, bound: Option<nat>)
    ensures Pick([e], k, bound) == if Visible(e, k, bound) then Some(e) else None
  {
    assert [e][..0] == [];
  }

  lemma SecondVersion(e: Entry)
    requires e in Crossing() && e.cell.key == [15] && e.cell.version >= 18
    ensures e == CrossingEntry(15)
  {}

  // ---------------------------------------------------------------- the block trailer

  const MAGIC := 0x52535450

  function EncodeOffsets(offsets: seq<nat>): Bytes {
    if offsets == [] then [] else EncodeOffsets(offsets[..|offsets| - 1]) + BigEndian(offsets[|offsets| - 1], 4)
  }

  /** A block as it is written: records, restart offsets, their number and a magic number. */
  function EncodeBlock(data: Bytes, offsets: seq<nat>): Bytes {
    data + EncodeOffsets(offsets) + BigEndian(|offsets|, 4) + BigEndian(MAGIC, 4)
  }

  function DecodeOffsets(b: Bytes, n: nat): seq<nat>
    requires |b| == 4 * n
  {
    if n == 0 then [] else DecodeOffsets(b[..4 * n - 4], n - 1) + [FromBigEndian(b[4 * n - 4..])]
  }

  function ParseBlock(b: Bytes): Option<(Bytes, seq<nat>)> {
    if |b| < 8 || FromBigEndian(b[|b| - 4..]) != MAGIC then None
    else
      var n := FromBigEndian(b[|b| - 8..|b| - 4]);
      if n <= 0 || n * 4 + 8 > |b| then None
      else Some((b[..|b| - 8 - n * 4], DecodeOffsets(b[|b| - 8 - n * 4..|b| - 8], n)))
  }

  lemma {:induction false} OffsetsRound(offsets: seq<nat>)
    requires forall j :: 0 <= j < |offsets| ==> offsets[j] < Pow256(4)
    ensures |EncodeOffsets(offsets)| == 4 * |offsets| && DecodeOffsets(EncodeOffsets(offsets), |offsets|) == offsets
  {
    if offsets != [] {
      var front, last := offsets[..|offsets| - 1], offsets[|offsets| - 1];
      OffsetsRound(front);
      BigEndianRound(last, 4);
      var b := EncodeOffsets(offsets);
      assert b[..4 * |offsets| - 4] == EncodeOffsets(front) && b[4 * |offsets| - 4..] == BigEndian(last, 4);
      assert offsets == front + [last];
    }
  }

  /** A block is read back as it was written. */
  lemma BlockRound(data: Bytes, offsets: seq<nat>)
    requires 0 < |offsets| < Pow256(4) && forall j :: 0 <= j < |offsets| ==> offsets[j] < Pow256(4)
    ensures ParseBlock(EncodeBlock(data, offsets)) == Some((data, offsets))
  {
    var b := EncodeBlock(data, offsets);
    var o := EncodeOffsets(offsets);
    OffsetsRound(offsets);
    Widths();
    BigEndianRound(MAGIC, 4);
    BigEndianRound(|offsets|, 4);
    assert |b| == |data| + |o| + 8;
    assert b[|b| - 4..] == BigEndian(MAGIC, 4) && b[|b| - 8..|b| - 4] == BigEndian(|offsets|, 4);
    assert b[..|data|] == data && b[|data|..|data| + |o|] == o;
  }

  /** How a lookup scans a block: from a restart point if there are several. */
  method ScanBlock(b: Bytes, k: Key, bound: Option<nat>, ghost es: Run, ghost offsets: seq<nat>)
    returns (best: Option<Entry>)
    requires Stored(es) && Restarts(es, offsets) && |EncodeAll(es)| < Pow256(4) && |offsets| < Pow256(4)
    requires b == EncodeBlock(EncodeAll(es), offsets)
    ensures best == if |offsets| > 1 then RestartPick(es, |offsets|, k, bound) else Pick(es, k, bound)
  {
    forall j | 0 <= j < |offsets| ensures offsets[j] < Pow256(4) { RestartOffset(es, offsets, j); }
    BlockRound(EncodeAll(es), offsets);
    var br := ParseBlock(b);
    if br.Some? && |br.value.1| > 1 {
      best := ScanRestart(br.value.0, br.value.1, k, bound, es);
    } else {
      best := ScanLinear(br.value.0, k, bound, es);
    }
  }

  lemma RestartOffset(es: Run, offsets: seq<nat>, j: nat)
    requires Restarts(es, offsets) && j < |offsets|
    ensures offsets[j] <= |EncodeAll(es)|
  {
    EncodedPrefix(es, j * INTERVAL);
  }
}
