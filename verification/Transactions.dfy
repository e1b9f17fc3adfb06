/** Concurrent transactions as a step system, and the plain one-at-a-time database they are
    compared with. Each mutex-protected section of the oracle is one step; a commit's batch is
    applied key by key, in any order and interleaved with everything else. */
module Transactions {
  import opened Store
  import opened OracleSpec

  type Id = nat

  /** A call made inside a transaction, with the clock and answer it saw. A deletion is a `Put`
      of a tombstone. */
  datatype Op = Get(key: Key, now: int, result: Option<Bytes>) | Put(key: Key, payload: Payload)

  datatype Status =
    | Active
    | Pending(commitTs: nat, applied: set<Key>)
    | Failed(commitTs: nat)
    | Aborted(commitTs: nat)
    | Applied(commitTs: nat)
    | Closed

  datatype Tx = Tx(
    readOnly: bool, readTs: nat, ops: seq<Op>, writes: map<Key, Payload>, readSet: set<Key>,
    status: Status, registered: bool)

  /** `cells` is the flat multi-version store; `owner` says who was given a commit timestamp and
      `log` records the calls of every successful commit under its timestamp. */
  datatype Sys = Sys(
    o: OracleState, txs: map<Id, Tx>, cells: map<Cell, Payload>, owner: map<nat, Id>,
    log: map<nat, seq<Op>>, now: int)

  // ---------------------------------------------------------------- the serial database

  datatype Outcome = Outcome(ok: bool, db: map<Key, Payload>, own: set<Key>)

  function Find(db: map<Key, Payload>, k: Key): Option<Payload> {
    if k in db then Some(db[k]) else None
  }

  /** A transaction sees its own buffered write whatever its expiry. */
  function OwnResult(p: Payload): Option<Bytes> {
    if p.deleted then None else Some(p.value)
  }

  /** Runs the recorded calls alone on an ordinary map; `ok` says every answer was the same. */
  function Execute(db: map<Key, Payload>, ops: seq<Op>): (r: Outcome)
    ensures r.own <= r.db.Keys
  {
    if ops == [] then Outcome(true, db, {})
    else
      var r := Execute(db, ops[..|ops| - 1]);
      match ops[|ops| - 1]
      case Put(k, p) => Outcome(r.ok, r.db[k := p], r.own + {k})
      case Get(k, now, res) =>
        var expected := if k in r.own then OwnResult(r.db[k]) else ObserveCell(Find(r.db, k), now);
        r.(ok := r.ok && res == expected)
  }

  /** The database after running, one at a time and in timestamp order, every successful commit
      stamped at most `t`. */
  ghost function DbAt(log: map<nat, seq<Op>>, t: nat): map<Key, Payload> {
    if t == 0 then map[]
    else
      var before := DbAt(log, t - 1);
      if t in log then Execute(before, log[t]).db else before
  }

  // ---------------------------------------------------------------- steps

  datatype Action =
    | BeginTx(id: Id, readOnly: bool)
    | Read(id: Id, key: Key)
    | Write(id: Id, key: Key, payload: Payload)
    | Close(id: Id)
    | Check(id: Id)
    | ApplyOne(id: Id, key: Key)
    | Finish(id: Id)
    | Fail(id: Id)
    | AbortCommit(id: Id)
    | Unregister(id: Id)
    | AdvanceHorizon
    | Tick(now: int)

  ghost function Fps(h: Key -> Fp, keys: set<Key>): set<Fp> {
    set k | k in keys :: h(k)
  }

  ghost predicate Is(s: Sys, id: Id, st: Status) {
    id in s.txs && s.txs[id].status == st
  }

  ghost predicate Enabled(s: Sys, a: Action) {
    match a
    case BeginTx(id, _) => id !in s.txs
    case Read(id, _) => Is(s, id, Active)
    case Write(id, _, _) => Is(s, id, Active) && !s.txs[id].readOnly
    case Close(id) => Is(s, id, Active)
    case Check(id) => Is(s, id, Active) && !s.txs[id].readOnly && s.txs[id].writes != map[]
    case ApplyOne(id, k) =>
      id in s.txs && s.txs[id].status.Pending? && k in s.txs[id].writes && k !in s.txs[id].status.applied
    case Finish(id) =>
      id in s.txs && s.txs[id].status.Pending? && s.txs[id].status.applied == s.txs[id].writes.Keys
    case Fail(id) => id in s.txs && s.txs[id].status.Pending? && s.txs[id].status.applied == {}
    case AbortCommit(id) => id in s.txs && s.txs[id].status.Failed?
    case Unregister(id) =>
      id in s.txs && s.txs[id].registered &&
      (s.txs[id].status.Applied? || s.txs[id].status.Aborted? || s.txs[id].status.Closed?)
    case AdvanceHorizon => true
    case Tick(now) => s.now <= now
  }

  ghost function Answer(s: Sys, t: Tx, k: Key): Option<Bytes> {
    if k in t.writes then OwnResult(t.writes[k])
    else ObserveCell(Lookup(s.cells, k, t.readTs), s.now)
  }

  ghost function CheckFps(h: Key -> Fp, t: Tx): set<Fp> {
    Fps(h, t.readSet) + Fps(h, t.writes.Keys)
  }

  ghost predicate Runnable(s: Sys, id: Id) { Is(s, id, Active) }

  ghost predicate Applying(s: Sys, id: Id) { id in s.txs && s.txs[id].status.Pending? }

  ghost function DoBegin(s: Sys, id: Id, ro: bool): Sys {
    s.(o := Begin(s.o), txs := s.txs[id := Tx(ro, ReadTs(s.o), [], map[], {}, Active, true)])
  }

  /** One more call inside a transaction, answered with `result`. */
  function AfterGet(t: Tx, k: Key, now: int, result: Option<Bytes>): Tx {
    t.(ops := t.ops + [Get(k, now, result)], readSet := if k in t.writes then t.readSet else t.readSet + {k})
  }

  function AfterPut(t: Tx, k: Key, p: Payload): Tx {
    t.(ops := t.ops + [Put(k, p)], writes := t.writes[k := p])
  }

  ghost function DoRead(s: Sys, id: Id, k: Key): Sys
    requires Runnable(s, id)
  {
    s.(txs := s.txs[id := AfterGet(s.txs[id], k, s.now, Answer(s, s.txs[id], k))])
  }

  ghost function DoWrite(s: Sys, id: Id, k: Key, p: Payload): Sys
    requires Runnable(s, id)
  {
    s.(txs := s.txs[id := AfterPut(s.txs[id], k, p)])
  }

  ghost function DoClose(s: Sys, id: Id): Sys
    requires Runnable(s, id)
  {
    s.(txs := s.txs[id := s.txs[id].(status := Closed)])
  }

  ghost predicate Refused(h: Key -> Fp, s: Sys, id: Id)
    requires Runnable(s, id)
  {
    Conflicts(s.o.history, s.txs[id].readTs, CheckFps(h, s.txs[id]))
  }

  ghost function DoCommit(h: Key -> Fp, s: Sys, id: Id): Sys
    requires Runnable(s, id)
  {
    var t := s.txs[id];
    var ts := s.o.nextTs + 1;
    s.(o := Commit(s.o, Fps(h, t.writes.Keys)), txs := s.txs[id := t.(status := Pending(ts, {}))],
       owner := s.owner[ts := id])
  }

  ghost function DoApply(s: Sys, id: Id, k: Key): Sys
    requires Applying(s, id) && k in s.txs[id].writes
  {
    var t := s.txs[id];
    var ts := t.status.commitTs;
    s.(cells := s.cells[Cell(k, ts) := t.writes[k]],
       txs := s.txs[id := t.(status := Pending(ts, t.status.applied + {k}))])
  }

  ghost function DoFinish(s: Sys, id: Id): Sys
    requires Applying(s, id)
  {
    var t := s.txs[id];
    var ts := t.status.commitTs;
    s.(o := MarkApplied(s.o, ts), txs := s.txs[id := t.(status := Applied(ts))], log := s.log[ts := t.ops])
  }

  ghost function DoFail(s: Sys, id: Id): Sys
    requires Applying(s, id)
  {
    var t := s.txs[id];
    s.(o := MarkApplied(s.o, t.status.commitTs),
       txs := s.txs[id := t.(status := Failed(t.status.commitTs))])
  }

  ghost function DoAbort(s: Sys, id: Id): Sys
    requires id in s.txs && s.txs[id].status.Failed?
  {
    var t := s.txs[id];
    s.(o := Abort(s.o, t.status.commitTs),
       txs := s.txs[id := t.(status := Aborted(t.status.commitTs))])
  }

  ghost function DoUnregister(s: Sys, id: Id): Sys
    requires id in s.txs
  {
    s.(o := Done(s.o, s.txs[id].readTs), txs := s.txs[id := s.txs[id].(registered := false)])
  }

  ghost function Step(h: Key -> Fp, s: Sys, a: Action): Sys
    requires Enabled(s, a)
  {
    match a
    case BeginTx(id, ro) => DoBegin(s, id, ro)
    case Read(id, k) => DoRead(s, id, k)
    case Write(id, k, p) => DoWrite(s, id, k, p)
    case Close(id) => DoClose(s, id)
    case Check(id) => if Refused(h, s, id) then DoClose(s, id) else DoCommit(h, s, id)
    case ApplyOne(id, k) => DoApply(s, id, k)
    case Finish(id) => DoFinish(s, id)
    case Fail(id) => DoFail(s, id)
    case AbortCommit(id) => DoAbort(s, id)
    case Unregister(id) => DoUnregister(s, id)
    case AdvanceHorizon => s.(o := Advance(s.o))
    case Tick(now) => s.(now := now)
  }

  const Start := Sys(Initial, map[], map[], map[], map[], 0)

  /** A finite run: the states it passes through and the action taken in each. */
  ghost predicate Run(h: Key -> Fp, states: seq<Sys>, acts: seq<Action>) {
    && |states| == |acts| + 1
    && states[0] == Start
    && forall i :: 0 <= i < |acts| ==>
         Enabled(states[i], acts[i]) && states[i + 1] == Step(h, states[i], acts[i])
  }
}
