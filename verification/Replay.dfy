/** Applying a batch of writes to log and memtable, and replaying the log into an empty memtable. */
module Replay {
  import opened Store
  import opened ByteOrder
  import opened Entries
  import opened Encoding
  import opened ValueLog
  import opened Tables
  import W = Wal

  const OP_PUT: Byte := 1
  const OP_DELETE: Byte := 2

  datatype Write = Put(key: Key, value: Bytes, expiresAt: int) | Delete(key: Key)

  // ---------------------------------------------------------------- pointers in the log

  const MAGIC: Bytes := [86, 76, 80, 84]

  function EncodeWalPointer(p: Ptr): Bytes {
    MAGIC + BigEndian(p.fid, 4) + BigEndian(p.offset, 8) + BigEndian(p.size, 4)
  }

  predicate IsWalPointer(b: Bytes) {
    |b| == 20 && b[..4] == MAGIC
  }

  function DecodeWalPointer(b: Bytes): Ptr
    requires IsWalPointer(b)
  {
    Ptr(FromBigEndian(b[4..8]), FromBigEndian(b[8..16]), FromBigEndian(b[16..20]))
  }

  lemma WalPointerRound(p: Ptr)
    requires Fits(p)
    ensures IsWalPointer(EncodeWalPointer(p)) && DecodeWalPointer(EncodeWalPointer(p)) == p
  {
    var b := EncodeWalPointer(p);
    assert b[..4] == MAGIC && b[4..8] == BigEndian(p.fid, 4) && b[8..16] == BigEndian(p.offset, 8)
        && b[16..20] == BigEndian(p.size, 4);
    BigEndianRound(p.fid, 4);
    BigEndianRound(p.offset, 8);
    BigEndianRound(p.size, 4);
  }

  // ---------------------------------------------------------------- one write

  /** What the memtable gets; `p` is where the value log put the value, if it was asked to. */
  function Applied(w: Write, threshold: nat, p: Ptr): Payload {
    match w
    case Delete(_) => Payload([], true, 0)
    case Put(_, v, exp) => Payload(if |v| < threshold then EncodeInline(v) else EncodePointer(p), false, exp)
  }

  /** What the log gets. */
  function Logged(w: Write, threshold: nat, p: Ptr, version: nat, ts: int): W.Record {
    match w
    case Delete(k) => W.Record(OP_DELETE, k, [], 0, version, ts)
    case Put(k, v, exp) => W.Record(OP_PUT, k, if |v| < threshold then v else EncodeWalPointer(p), exp, version, ts)
  }

  /** What replay makes of a record at time `now`; `p` is where a value that is too large now goes. */
  function Replayed(r: W.Record, now: int, threshold: nat, p: Ptr): Option<Payload> {
    if r.expiresAt > 0 && now >= r.expiresAt then Some(Payload([], true, 0))
    else if r.op == OP_PUT then
      if IsWalPointer(r.value) then Some(Payload(EncodePointer(DecodeWalPointer(r.value)), false, r.expiresAt))
      else if |r.value| < threshold then Some(Payload(EncodeInline(r.value), false, r.expiresAt))
      else Some(Payload(EncodePointer(p), false, r.expiresAt))
    else if r.op == OP_DELETE then Some(Payload([], true, 0))
    else None
  }

  /** What a read sees of a stored payload at time `t`. */
  function View(p: Payload, read: Ptr -> Option<Bytes>, t: int): Option<Bytes> {
    if Dead(p, t) then None else Resolve(p.value, read)
  }

  /** The value log returns what was put at a pointer. */
  ghost predicate Kept(read: Ptr -> Option<Bytes>, p: Ptr, v: Bytes) {
    Fits(p) && p.size == |v| && (v != [] ==> read(p) == Some(v))
  }

  /** A value that looks like a pointer in the log. */
  ghost predicate Disguised(w: Write, threshold: nat) {
    w.Put? && |w.value| < threshold && IsWalPointer(w.value)
  }

  /** A write is read back until it expires, and a deletion reads as nothing. */
  lemma AppliedReads(w: Write, threshold: nat, p: Ptr, read: Ptr -> Option<Bytes>, t: int)
    requires w.Put? && |w.value| >= threshold ==> Kept(read, p, w.value)
    ensures View(Applied(w, threshold, p), read, t) ==
              if w.Put? && (w.expiresAt <= 0 || t < w.expiresAt) then Some(w.value) else None
  {
    if w.Put? {
      if |w.value| >= threshold {
        StoredValueRound(w.value, p, read);
      } else {
        assert EncodeInline(w.value)[1..] == w.value;
      }
    }
  }

  /** A replayed write reads as it did before, whatever the thresholds were and are. */
  lemma ReplayedReads(w: Write, threshold: nat, p: Ptr, version: nat, ts: int, now: int, threshold': nat, p': Ptr,
      read: Ptr -> Option<Bytes>, t: int)
    requires now <= t && !Disguised(w, threshold)
    requires w.Put? && |w.value| >= threshold ==> Kept(read, p, w.value)
    requires w.Put? && |w.value| < threshold && |w.value| >= threshold' ==> Kept(read, p', w.value)
    ensures var r := Replayed(Logged(w, threshold, p, version, ts), now, threshold', p');
            r.Some? && View(r.value, read, t) == View(Applied(w, threshold, p), read, t)
    ensures View(Applied(w, threshold, p), read, t) ==
              if w.Put? && (w.expiresAt <= 0 || t < w.expiresAt) then Some(w.value) else None
  {
    AppliedReads(w, threshold, p, read, t);
    if w.Put? {
      if |w.value| >= threshold {
        WalPointerRound(p);
      } else if |w.value| >= threshold' {
        StoredValueRound(w.value, p', read);
      }
    }
  }

  /** A disguised value comes back as whatever the log holds at the place its bytes name: it reads as
      before exactly when that happens to be the value itself. */
  lemma DisguisedReads(w: Write, threshold: nat, p: Ptr, version: nat, ts: int, now: int, threshold': nat, p': Ptr,
      read: Ptr -> Option<Bytes>, t: int)
    requires now <= t && Disguised(w, threshold) && !Expired(Applied(w, threshold, p), t)
    ensures var r, q := Replayed(Logged(w, threshold, p, version, ts), now, threshold', p'), DecodeWalPointer(w.value);
            && r.Some? && View(Applied(w, threshold, p), read, t) == Some(w.value)
            && (View(r.value, read, t) == Some(w.value) <==> q.size > 0 && read(q) == Some(w.value))
  {
    var q := DecodeWalPointer(w.value);
    BigEndianBound(w.value[4..8]);
    BigEndianBound(w.value[8..16]);
    BigEndianBound(w.value[16..20]);
    PointerRound(q);
    assert EncodeInline(w.value)[1..] == w.value;
    assert EncodePointer(q)[0] == FLAG_POINTER;
  }

  /** Twenty bytes a client may well store: the magic followed by zeroes. */
  const ZEROES: Bytes := seq(16, i => 0)
  const LOOKALIKE: Bytes := MAGIC + ZEROES

  /** Stored inline under a threshold of 64 it reads as itself; after a replay it reads as empty, whatever
      the value log holds. */
  lemma LookalikeLost(k: Key, p: Ptr, version: nat, ts: int, now: int, threshold': nat, p': Ptr,
      read: Ptr -> Option<Bytes>, t: int)
    requires now <= t
    ensures var w := Put(k, LOOKALIKE, 0);
            var r := Replayed(Logged(w, 64, p, version, ts), now, threshold', p');
            && Disguised(w, 64) && View(Applied(w, 64, p), read, t) == Some(LOOKALIKE)
            && r.Some? && View(r.value, read, t) == Some([])
  {
    var w := Put(k, LOOKALIKE, 0);
    assert LOOKALIKE[..4] == MAGIC;
    DisguisedReads(w, 64, p, version, ts, now, threshold', p', read, t);
    var q := DecodeWalPointer(LOOKALIKE);
    AllZero(LOOKALIKE[4..8]);
    AllZero(LOOKALIKE[8..16]);
    AllZero(LOOKALIKE[16..20]);
    PointerRound(q);
    assert EncodePointer(q)[0] == FLAG_POINTER;
  }

  lemma {:induction false} AllZero(b: Bytes)
    requires forall i :: 0 <= i < |b| ==> b[i] == 0
    ensures FromBigEndian(b) == 0
  {
    if b != [] { AllZero(b[..|b| - 1]); }
  }

  // ---------------------------------------------------------------- the whole log

  /** A write with everything that was decided about it. */
  datatype Done = Done(write: Write, threshold: nat, at: Ptr, version: nat, ts: int)

  ghost function Live(ds: seq<Done>): Run {
    if ds == [] then []
    else
      var d := ds[|ds| - 1];
      PutFront(Live(ds[..|ds| - 1]), Entry(Cell(d.write.key, d.version), Applied(d.write, d.threshold, d.at)))
  }

  ghost function LogOf(ds: seq<Done>): seq<W.Record> {
    seq(|ds|, i requires 0 <= i < |ds| => Logged(ds[i].write, ds[i].threshold, ds[i].at, ds[i].version, ds[i].ts))
  }

  /** The replay loop: `places` are the pointers the value log hands out for values written again. */
  method ReplayAll(records: seq<W.Record>, now: int, threshold: nat, places: seq<Ptr>) returns (mem: Run)
    requires |places| == |records|
    ensures mem == Again(records, now, threshold, places)
  {
    mem := [];
    for i := 0 to |records|
      invariant mem == Again(records[..i], now, threshold, places[..i])
    {
      var r := records[i];
      assert records[..i + 1][..i] == records[..i] && places[..i + 1][..i] == places[..i];
      var p := Replayed(r, now, threshold, places[i]);
      if p.Some? { mem := PutFront(mem, Entry(Cell(r.key, r.version), p.value)); }
    }
    assert records[..|records|] == records && places[..|places|] == places;
  }

  ghost function Again(records: seq<W.Record>, now: int, threshold: nat, places: seq<Ptr>): Run
    requires |places| == |records|
  {
    if records == [] then []
    else
      var n := |records| - 1;
      var mem, p := Again(records[..n], now, threshold, places[..n]), Replayed(records[n], now, threshold, places[n]);
      if p.None? then mem else PutFront(mem, Entry(Cell(records[n].key, records[n].version), p.value))
  }

  /** The same versions in the same order, and each reads alike. */
  ghost predicate Alike(a: Run, b: Run, read: Ptr -> Option<Bytes>, t: int) {
    && |a| == |b|
    && forall i :: 0 <= i < |a| ==> a[i].cell == b[i].cell && View(a[i].payload, read, t) == View(b[i].payload, read, t)
  }

  lemma {:induction false} PutAlike(a: Run, b: Run, e: Entry, f: Entry, read: Ptr -> Option<Bytes>, t: int)
    requires Alike(a, b, read, t) && e.cell == f.cell && View(e.payload, read, t) == View(f.payload, read, t)
    ensures Alike(PutFront(a, e), PutFront(b, f), read, t)
  {
    if a != [] && Lt(a[0].cell.key, e.cell.key) { PutAlike(a[1..], b[1..], e, f, read, t); }
  }

  ghost predicate Faithful(d: Done, threshold: nat, place: Ptr, read: Ptr -> Option<Bytes>) {
    && !Disguised(d.write, d.threshold)
    && (d.write.Put? && |d.write.value| >= d.threshold ==> Kept(read, d.at, d.write.value))
    && (d.write.Put? && |d.write.value| < d.threshold && |d.write.value| >= threshold ==>
         Kept(read, place, d.write.value))
  }

  lemma {:induction false} ReplayAlike(ds: seq<Done>, now: int, threshold: nat, places: seq<Ptr>,
      read: Ptr -> Option<Bytes>, t: int)
    requires |places| == |ds| && now <= t && forall i :: 0 <= i < |ds| ==> Faithful(ds[i], threshold, places[i], read)
    ensures Alike(Live(ds), Again(LogOf(ds), now, threshold, places), read, t)
  {
    if ds != [] {
      var n := |ds| - 1;
      assert LogOf(ds)[..n] == LogOf(ds[..n]);
      ReplayAlike(ds[..n], now, threshold, places[..n], read, t);
      var d := ds[n];
      assert Faithful(d, threshold, places[n], read);
      ReplayedReads(d.write, d.threshold, d.at, d.version, d.ts, now, threshold, places[n], read, t);
      var p := Replayed(LogOf(ds)[n], now, threshold, places[n]);
      PutAlike(Live(ds[..n]), Again(LogOf(ds[..n]), now, threshold, places[..n]),
               Entry(Cell(d.write.key, d.version), Applied(d.write, d.threshold, d.at)),
                   Entry(Cell(d.write.key, d.version), p.value), read, t);
    }
  }

  lemma {:induction false} FindAlike(a: Run, b: Run, k: Key, v: nat, read: Ptr -> Option<Bytes>, t: int)
    requires Alike(a, b, read, t)
    ensures Find(a, k, v).None? <==> Find(b, k, v).None?
    ensures Find(a, k, v).Some? ==> View(Find(a, k, v).value, read, t) == View(Find(b, k, v).value, read, t)
  {
    if a != [] && !(a[0].cell.key == k && a[0].cell.version <= v) { FindAlike(a[1..], b[1..], k, v, read, t); }
  }

  /** Replaying the log of any sequence of writes gives a memtable in which every lookup, at every
      timestamp and from then on, reads what it read in the memtable that the writes had filled. */
  lemma ReplayKeepsReads(ds: seq<Done>, now: int, threshold: nat, places: seq<Ptr>, read: Ptr -> Option<Bytes>, k: Key,
      v: nat, t: int)
    requires |places| == |ds| && now <= t && forall i :: 0 <= i < |ds| ==> Faithful(ds[i], threshold, places[i], read)
    ensures var before, after := Find(Live(ds), k, v), Find(Again(LogOf(ds), now, threshold, places), k, v);
            && (before.None? <==> after.None?)
            && (before.Some? ==> View(before.value, read, t) == View(after.value, read, t))
  {
    ReplayAlike(ds, now, threshold, places, read, t);
    FindAlike(Live(ds), Again(LogOf(ds), now, threshold, places), k, v, read, t);
  }

  // ---------------------------------------------------------------- applying a batch

  ghost function DoneBatch(batch: seq<Write>, version: nat, threshold: nat, places: seq<Ptr>, ts: int): seq<Done>
    requires |places| == |batch|
  {
    seq(|batch|, i requires 0 <= i < |batch| => Done(batch[i], threshold, places[i], version, ts))
  }

  /** A memtable after more writes. */
  ghost function Filled(mem: Run, ds: seq<Done>): Run {
    if ds == [] then mem
    else
      var d := ds[|ds| - 1];
      PutFront(Filled(mem, ds[..|ds| - 1]), Entry(Cell(d.write.key, d.version), Applied(d.write, d.threshold, d.at)))
  }

  lemma {:induction false} FilledIsLive(ds: seq<Done>, more: seq<Done>)
    ensures Filled(Live(ds), more) == Live(ds + more)
  {
    if more == [] {
      assert ds + more == ds;
    } else {
      assert (ds + more)[..|ds + more| - 1] == ds + more[..|more| - 1];
      FilledIsLive(ds, more[..|more| - 1]);
    }
  }

  /** How the two writes of an entry go: the value to the value log, if it is too large, and the record. */
  datatype Outcome = Outcome(placed: bool, logged: bool)

  ghost predicate Large(w: Write, threshold: nat) {
    w.Put? && |w.value| >= threshold
  }

  /** The entry makes the batch fail: an error of a pointer record's append is dropped. */
  ghost predicate Fails(w: Write, threshold: nat, o: Outcome) {
    if Large(w, threshold) then !o.placed else !o.logged
  }

  /** The records that reach the log. */
  ghost function LoggedOf(ds: seq<Done>, outs: seq<Outcome>): seq<W.Record>
    requires |outs| == |ds|
  {
    if ds == [] then []
    else
      var n := |ds| - 1;
      LoggedOf(ds[..n], outs[..n]) + if outs[n].logged then [LogOf(ds)[n]] else []
  }

  lemma {:induction false} LoggedAllIff(ds: seq<Done>, outs: seq<Outcome>)
    requires |outs| == |ds|
    ensures |LoggedOf(ds, outs)| <= |ds|
    ensures LoggedOf(ds, outs) == LogOf(ds) <==> forall i :: 0 <= i < |outs| ==> outs[i].logged
  {
    if ds != [] {
      var n := |ds| - 1;
      LoggedAllIff(ds[..n], outs[..n]);
      assert LogOf(ds)[..n] == LogOf(ds[..n]);
      assert LogOf(ds) == LogOf(ds)[..n] + [LogOf(ds)[n]];
      if LoggedOf(ds, outs) == LogOf(ds) {
        assert outs[n].logged && LoggedOf(ds, outs)[..n] == LoggedOf(ds[..n], outs[..n]);
      }
    }
  }

  lemma {:induction false} PutLonger(mem: Run, e: Entry)
    ensures |PutFront(mem, e)| == |mem| + 1
  {
    if mem != [] && Lt(mem[0].cell.key, e.cell.key) { PutLonger(mem[1..], e); }
  }

  lemma {:induction false} FilledLonger(mem: Run, ds: seq<Done>)
    ensures |Filled(mem, ds)| == |mem| + |ds|
  {
    if ds != [] {
      var d := ds[|ds| - 1];
      FilledLonger(mem, ds[..|ds| - 1]);
      PutLonger(Filled(mem, ds[..|ds| - 1]), Entry(Cell(d.write.key, d.version), Applied(d.write, d.threshold, d.at)));
    }
  }

  /** No entry makes the batch fail. */
  ghost predicate GoesOn(ds: seq<Done>, outs: seq<Outcome>)
    requires |outs| == |ds|
  {
    forall i :: 0 <= i < |ds| ==> !Fails(ds[i].write, ds[i].threshold, outs[i])
  }

  /** A batch is logged and applied as a whole, or neither. */
  ghost predicate WholeOrNothing(ds: seq<Done>, log: seq<W.Record>, mem: Run, log': seq<W.Record>, mem': Run) {
    (log' == log + LogOf(ds) && mem' == Filled(mem, ds)) || (log' == log && mem' == mem)
  }

  /** What a batch leaves behind. */
  ghost predicate Leaves(ds: seq<Done>, outs: seq<Outcome>, log: seq<W.Record>, mem: Run,
                         log': seq<W.Record>, mem': Run)
    requires |outs| == |ds|
  {
    if GoesOn(ds, outs) then log' == log + LoggedOf(ds, outs) && mem' == Filled(mem, ds) else log' == log && mem' == mem
  }

  /** A batch is logged and applied as a whole or not at all if and only if it does not go on past a pointer
      record that could not be appended. */
  lemma WholeOrNothingIff(ds: seq<Done>, outs: seq<Outcome>, log: seq<W.Record>, mem: Run,
                          log': seq<W.Record>, mem': Run)
    requires |outs| == |ds| && Leaves(ds, outs, log, mem, log', mem')
    ensures WholeOrNothing(ds, log, mem, log', mem') <==>
              !(GoesOn(ds, outs) && exists i :: 0 <= i < |ds| && Large(ds[i].write, ds[i].threshold) && !outs[i].logged)
  {
    LoggedAllIff(ds, outs);
    FilledLonger(mem, ds);
    if GoesOn(ds, outs) {
      forall i | 0 <= i < |ds| && !outs[i].logged ensures Large(ds[i].write, ds[i].threshold) {
        assert !Fails(ds[i].write, ds[i].threshold, outs[i]);
      }
      if log + LoggedOf(ds, outs) == log + LogOf(ds) {
        assert LoggedOf(ds, outs) == (log + LoggedOf(ds, outs))[|log|..];
        assert LogOf(ds) == (log + LogOf(ds))[|log|..];
      }
    }
  }

  /** One large value whose pointer record is not appended: the batch succeeds, the value is in the memtable,
      the log knows nothing of it, and a replay does not bring it back. */
  lemma DroppedRecord(k: Key, v: Bytes, at: Ptr, log: seq<W.Record>, log': seq<W.Record>, mem': Run)
    requires Leaves([Done(Put(k, v, 0), |v|, at, 1, 0)], [Outcome(true, false)], log, [], log', mem')
    ensures GoesOn([Done(Put(k, v, 0), |v|, at, 1, 0)], [Outcome(true, false)])
    ensures log' == log && Find(mem', k, 1) == Some(Payload(EncodePointer(at), false, 0))
    ensures log == [] ==> log' == [] && Find(Again([], 0, 0, []), k, 1) == None
  {
    var ds, outs := [Done(Put(k, v, 0), |v|, at, 1, 0)], [Outcome(true, false)];
    assert ds[..0] == [] && outs[..0] == [];
    assert LoggedOf(ds[..0], outs[..0]) == [] && Filled([], ds[..0]) == [];
    assert LoggedOf(ds, outs) == [];
    assert mem' == [Entry(Cell(k, 1), Payload(EncodePointer(at), false, 0))];
  }

  /** Writes the log records of a batch, then the memtable entries. If an entry fails, the log is cut back and
      nothing is applied. */
  method ApplyBatch(log: W.LogFile, mem: Run, batch: seq<Write>, version: nat, threshold: nat, places: seq<Ptr>,
      outs: seq<Outcome>, ts: int)
    returns (ok: bool, mem': Run)
    requires log.Valid() && |places| == |batch| == |outs|
    requires forall i :: 0 <= i < |batch| ==> W.Fits(Logged(batch[i], threshold, places[i], version, ts))
    modifies log
    ensures log.Valid() && (ok <==> GoesOn(DoneBatch(batch, version, threshold, places, ts), outs))
    ensures Leaves(DoneBatch(batch, version, threshold, places, ts), outs, old(log.log), mem, log.log, mem')
  {
    ghost var ds := DoneBatch(batch, version, threshold, places, ts);
    ghost var before := log.log;
    var start := log.currentOffset;
    W.LoggedIs(log.codec, log.file, log.start, log.log);
    ok := true;
    for i := 0 to |batch|
      invariant log.Valid() && ok && log.log == before + LoggedOf(ds[..i], outs[..i])
      invariant GoesOn(ds[..i], outs[..i])
    {
      var w := batch[i];
      var failed := if w.Put? && |w.value| >= threshold then !outs[i].placed else !outs[i].logged;
      if failed {
        assert Fails(ds[i].write, ds[i].threshold, outs[i]);
        ok := false;
        break;
      }
      LoggedMore(ds, outs, i);
      if outs[i].logged { var _ := log.Append(Logged(w, threshold, places[i], version, ts)); }
    }
    if !ok {
      assert log.log[..|before|] == before;
      log.TruncateTo(start, |before|);
      return false, mem;
    }
    assert ds[..|batch|] == ds && outs[..|batch|] == outs;
    mem' := FillAll(mem, batch, version, threshold, places, ts);
  }

  method FillAll(mem: Run, batch: seq<Write>, version: nat, threshold: nat, places: seq<Ptr>, ghost ts: int)
    returns (mem': Run)
    requires |places| == |batch|
    ensures mem' == Filled(mem, DoneBatch(batch, version, threshold, places, ts))
  {
    ghost var ds := DoneBatch(batch, version, threshold, places, ts);
    mem' := mem;
    for i := 0 to |batch|
      invariant mem' == Filled(mem, ds[..i])
    {
      assert ds[..i + 1][..i] == ds[..i];
      mem' := PutFront(mem', Entry(Cell(batch[i].key, version), Applied(batch[i], threshold, places[i])));
    }
    assert ds[..|batch|] == ds;
  }

  lemma LoggedMore(ds: seq<Done>, outs: seq<Outcome>, i: nat)
    requires |outs| == |ds| && i < |ds|
    ensures LoggedOf(ds[..i + 1], outs[..i + 1]) ==
        LoggedOf(ds[..i], outs[..i]) + if outs[i].logged then [LogOf(ds)[i]] else []
    ensures GoesOn(ds[..i], outs[..i]) && !Fails(ds[i].write, ds[i].threshold, outs[i]) ==>
        GoesOn(ds[..i + 1], outs[..i + 1])
  {
    assert ds[..i + 1][..i] == ds[..i] && outs[..i + 1][..i] == outs[..i];
    assert LogOf(ds[..i + 1])[i] == LogOf(ds)[i];
  }
}
