/** A transaction handle as a mutable object, driving the oracle object. What each call leaves
    behind is stated with the step functions of `Transactions`. */
module TransactionClass {
  import opened Store
  import opened OracleSpec
  import opened OracleClass
  import opened Transactions

  datatype Error = TxnClosed | TxnReadOnly | KeyNotFound | TxnConflict

  datatype Result<+T> = Ok(value: T) | Err(error: Error)

  /** How far a call to commit got before the batch goes to the write workers: not past the first guard,
      nowhere for want of writes, to a conflict, or to a timestamp. */
  datatype Start = Skipped | Nothing | Refused | Stamped(commitTs: nat)

  method Fingerprints(h: Key -> Fp, keys: set<Key>) returns (fps: set<Fp>)
    ensures fps == Fps(h, keys)
  {
    fps := {};
    var todo := keys;
    while todo != {}
      invariant todo <= keys && fps == Fps(h, keys - todo)
    {
      var k :| k in todo;
      assert keys - (todo - {k}) == (keys - todo) + {k};
      fps := fps + {h(k)};
      todo := todo - {k};
    }
    assert keys - todo == keys;
  }

  class Transaction {
    const readOnly: bool
    const readTs: nat
    var closed: bool
    var writes: map<Key, Payload>
    var readSet: set<Key>
    /** The calls made so far. */
    ghost var ops: seq<Op>

    /** The transaction as the step system sees it while it is open. */
    ghost function Record(): Tx
      reads this
    {
      Tx(readOnly, readTs, ops, writes, readSet, Active, true)
    }

    constructor (o: Oracle, readOnly: bool)
      requires o.Valid()
      modifies o.watermark
      ensures o.Valid() && o.State() == Begin(old(o.State()))
      ensures Record() == Tx(readOnly, ReadTs(old(o.State())), [], map[], {}, Active, true) && !closed
    {
      this.readOnly, closed, writes, readSet, ops := readOnly, false, map[], {}, [];
      var ts := o.NewReadTs();
      readTs := ts;
    }

    /** `snapshot` is what the engine answers for `key` at `readTs`. */
    method Get(key: Key, snapshot: Option<Bytes>, ghost now: int) returns (r: Result<Bytes>)
      modifies this
      ensures old(closed) ==> r == Err(TxnClosed) && Record() == old(Record())
      ensures !old(closed) ==>
                var answer := if key in old(writes) then OwnResult(old(writes)[key]) else snapshot;
                && Record() == AfterGet(old(Record()), key, now, answer)
                && r == if answer.None? then Err(KeyNotFound) else Ok(answer.value)
      ensures !old(closed) && key in old(writes) ==>
                var own := old(writes)[key]; r == if own.deleted then Err(KeyNotFound) else Ok(own.value)
      ensures closed == old(closed)
      ensures readOnly && old(writes) == map[] ==> writes == map[]
    {
      if closed { return Err(TxnClosed); }
      if key in writes {
        var entry := writes[key];
        ops := ops + [Op.Get(key, now, OwnResult(entry))];
        if entry.deleted { return Err(KeyNotFound); }
        return Ok(entry.value);
      }
      readSet := readSet + {key};
      ops := ops + [Op.Get(key, now, snapshot)];
      if snapshot.None? { return Err(KeyNotFound); }
      return Ok(snapshot.value);
    }

    method SetEx(key: Key, val: Bytes, ttlSeconds: int, now: int) returns (r: Result<()>)
      modifies this
      ensures closed == old(closed)
      ensures r == if old(closed) then Err(TxnClosed) else if readOnly then Err(TxnReadOnly) else Ok(())
      ensures r.Err? ==> Record() == old(Record())
      ensures r.Ok? ==>
          Record() == AfterPut(old(Record()), key, Payload(val, false, if ttlSeconds > 0 then now + ttlSeconds else 0))
    {
      if closed { return Err(TxnClosed); }
      if readOnly { return Err(TxnReadOnly); }
      var exp := 0;
      if ttlSeconds > 0 { exp := now + ttlSeconds; }
      writes := writes[key := Payload(val, false, exp)];
      ops := ops + [Put(key, Payload(val, false, exp))];
      return Ok(());
    }

    method Delete(key: Key) returns (r: Result<()>)
      modifies this
      ensures closed == old(closed)
      ensures r == if old(closed) then Err(TxnClosed) else if readOnly then Err(TxnReadOnly) else Ok(())
      ensures r.Err? ==> Record() == old(Record())
      ensures r.Ok? ==> Record() == AfterPut(old(Record()), key, Payload([], true, 0))
    {
      if closed { return Err(TxnClosed); }
      if readOnly { return Err(TxnReadOnly); }
      writes := writes[key := Payload([], true, 0)];
      ops := ops + [Put(key, Payload([], true, 0))];
      return Ok(());
    }

    /** Commit up to handing the batch over: exactly the `Check` step on the oracle. */
    method StartCommit(o: Oracle, h: Key -> Fp) returns (s: Start)
      requires o.Valid()
      modifies this, o
      ensures o.Valid() && Record() == old(Record()) && o.watermark.readers == old(o.watermark.readers)
      ensures old(closed) || readOnly ==> s == Skipped && o.State() == old(o.State()) && closed == old(closed)
      ensures !(old(closed) || readOnly) ==> closed && s != Skipped
      ensures !(old(closed) || readOnly) && writes == map[] ==> s == Nothing && o.State() == old(o.State())
      ensures !(old(closed) || readOnly || writes == map[]) ==>
                if Conflicts(old(o.history), readTs, CheckFps(h, Record()))
                then s == Refused && o.State() == old(o.State())
                else s == Stamped(old(o.nextTs) + 1) && o.State() == Commit(old(o.State()), Fps(h, writes.Keys))
    {
      if closed || readOnly { return Skipped; }
      closed := true;
      if |writes| == 0 { return Nothing; }
      var writeFps := Fingerprints(h, writes.Keys);
      var readFps := Fingerprints(h, readSet);
      var ts := o.CheckAndCommit(readTs, readFps, writeFps);
      if ts.None? { return Refused; }
      return Stamped(ts.value);
    }

    /** The rest of commit, once the write workers have answered: the release is only due past the first
        guard. */
    method EndCommit(o: Oracle, s: Start, failed: bool)
      requires o.Valid()
      modifies o, o.watermark
      ensures o.Valid()
      ensures s.Skipped? ==> o.State() == old(o.State())
      ensures !s.Skipped? ==>
                var was := old(o.State());
                o.State() == Done(if s.Stamped? && failed then Abort(was, s.commitTs) else was, readTs)
    {
      if s.Skipped? { return; }
      if s.Stamped? && failed { o.AbortCommit(s.commitTs); }
      o.Done(readTs);
    }

    method Rollback(o: Oracle)
      requires o.Valid()
      modifies this, o.watermark
      ensures o.Valid() && closed && writes == map[] && readSet == {}
      ensures o.State() == if old(closed) then old(o.State()) else Done(old(o.State()), readTs)
    {
      if !closed {
        closed := true;
        o.Done(readTs);
      }
      writes, readSet := map[], {};
    }

    /** The end of an update or a view: commit, and the deferred rollback after it. The snapshot is released
        once, whether the transaction was read-only, had no writes, was refused, failed or succeeded. */
    method Finish(o: Oracle, h: Key -> Fp, failed: bool)
      requires o.Valid() && !closed
      modifies this, o, o.watermark
      ensures o.Valid() && closed && o.State().readers == old(o.State().readers) - multiset{readTs}
    {
      var s := StartCommit(o, h);
      EndCommit(o, s, failed);
      Rollback(o);
    }
  }
}
