/** A transaction reads its own writes: in every run, of the transactions alone and of the whole engine. */
module OwnReads {
  import opened Store
  import opened OracleSpec
  import opened SerialDatabase
  import T = Transactions
  import S = Serializability
  import P = ReadPath
  import E = EngineSystem
  import ES = EngineSerializability

  /** The buffer holds the last write of each key, and reads of written keys got it. */
  ghost predicate SeesOwn(t: T.Tx) {
    && (forall k :: NoPut(t.ops, k, |t.ops|) ==> k !in t.writes)
    && (forall k, i: nat :: LastPut(t.ops, k, i, |t.ops|) ==> k in t.writes && t.writes[k] == t.ops[i].payload)
    && forall k, i: nat, j: nat :: OwnRead(t.ops, k, i, j) ==> OwnRight(t.ops, i, j)
  }

  ghost predicate OwnRight(ops: seq<T.Op>, i: nat, j: nat) {
    i < |ops| && j < |ops| && ops[i].Put? && ops[j].Get? &&
    ops[j].result == if ops[i].payload.deleted then None else Some(ops[i].payload.value)
  }

  /** Call `j` reads `k`, which call `i` was the last to write. */
  ghost predicate OwnRead(ops: seq<T.Op>, k: Key, i: nat, j: nat) {
    j < |ops| && ops[j].Get? && ops[j].key == k && LastPut(ops, k, i, j)
  }

  lemma GetSeesOwn(t: T.Tx, k: Key, now: int, result: Option<Bytes>)
    requires SeesOwn(t)
    requires k in t.writes ==> result == if t.writes[k].deleted then None else Some(t.writes[k].value)
    ensures SeesOwn(T.AfterGet(t, k, now, result))
  {
    var t', n := T.AfterGet(t, k, now, result), |t.ops|;
    forall x | NoPut(t'.ops, x, |t'.ops|) ensures x !in t'.writes { SameNoPut(t'.ops, t.ops, x, n); }
    forall x, i: nat | LastPut(t'.ops, x, i, |t'.ops|) ensures x in t'.writes && t'.writes[x] == t'.ops[i].payload {
      SamePut(t'.ops, t.ops, x, i, n);
    }
    forall x, i: nat, j: nat | OwnRead(t'.ops, x, i, j) ensures OwnRight(t'.ops, i, j) {
      SamePut(t'.ops, t.ops, x, i, j);
      if j < n { assert OwnRead(t.ops, x, i, j); }
    }
  }

  lemma PutSeesOwn(t: T.Tx, k: Key, p: Payload)
    requires SeesOwn(t)
    ensures SeesOwn(T.AfterPut(t, k, p))
  {
    var t', n := T.AfterPut(t, k, p), |t.ops|;
    forall x | NoPut(t'.ops, x, |t'.ops|) ensures x !in t'.writes {
      SameNoPut(t'.ops, t.ops, x, n);
      assert t'.ops[n].Put? && t'.ops[n].key == k;
    }
    forall x, i: nat | LastPut(t'.ops, x, i, |t'.ops|) ensures x in t'.writes && t'.writes[x] == t'.ops[i].payload {
      SamePut(t'.ops, t.ops, x, i, n);
      assert t'.ops[n].Put? && t'.ops[n].key == k;
    }
    forall x, i: nat, j: nat | OwnRead(t'.ops, x, i, j) ensures OwnRight(t'.ops, i, j) {
      SamePut(t'.ops, t.ops, x, i, j);
      assert OwnRead(t.ops, x, i, j);
    }
  }

  ghost predicate AllSeeOwn(s: T.Sys) {
    forall id :: id in s.txs ==> SeesOwn(s.txs[id])
  }

  lemma StepSeesOwn(h: Key -> Fp, s: T.Sys, a: T.Action)
    requires AllSeeOwn(s) && T.Enabled(s, a)
    ensures AllSeeOwn(T.Step(h, s, a))
  {
    match a {
      case Read(id, k) => GetSeesOwn(s.txs[id], k, s.now, T.Answer(s, s.txs[id], k));
      case Write(id, k, p) => PutSeesOwn(s.txs[id], k, p);
      case _ => SameCalls(h, s, a);
    }
  }

  lemma SameCalls(h: Key -> Fp, s: T.Sys, a: T.Action)
    requires AllSeeOwn(s) && T.Enabled(s, a) && !a.Read? && !a.Write?
    ensures AllSeeOwn(T.Step(h, s, a))
  {
    var s' := T.Step(h, s, a);
    forall id | id in s'.txs ensures SeesOwn(s'.txs[id]) {
      CallsStay(h, s, a, id);
      if id in s.txs { SameSeesOwn(s.txs[id], s'.txs[id]); } else { FreshSeesOwn(s'.txs[id]); }
    }
  }

  lemma CallsStay(h: Key -> Fp, s: T.Sys, a: T.Action, id: T.Id)
    requires T.Enabled(s, a) && !a.Read? && !a.Write? && id in T.Step(h, s, a).txs
    ensures var t := T.Step(h, s, a).txs[id];
            if id in s.txs then t.ops == s.txs[id].ops && t.writes == s.txs[id].writes
            else t.ops == [] && t.writes == map[]
  {}

  lemma FreshSeesOwn(t: T.Tx)
    requires t.ops == [] && t.writes == map[]
    ensures SeesOwn(t)
  {}

  lemma SameSeesOwn(t: T.Tx, t': T.Tx)
    requires SeesOwn(t) && t'.ops == t.ops && t'.writes == t.writes
    ensures SeesOwn(t')
  {}

  lemma {:induction false} RunSeesOwn(h: Key -> Fp, states: seq<T.Sys>, acts: seq<T.Action>, n: nat)
    requires T.Run(h, states, acts) && n < |states|
    ensures AllSeeOwn(states[n])
  {
    if n > 0 {
      RunSeesOwn(h, states, acts, n - 1);
      StepSeesOwn(h, states[n - 1], acts[n - 1]);
    }
  }

  /** In every run, a read of a key that the transaction has written returns what it wrote last, whatever the
      expiry, and nothing if it deleted the key. */
  lemma OwnWritesRead(h: Key -> Fp, states: seq<T.Sys>, acts: seq<T.Action>, n: nat, id: T.Id, i: nat, j: nat)
    requires T.Run(h, states, acts) && n < |states| && id in states[n].txs
    requires var ops := states[n].txs[id].ops;
             && i < j < |ops| && ops[i].Put? && ops[j].Get? && ops[j].key == ops[i].key
             && forall m :: i < m < j && ops[m].Put? ==> ops[m].key != ops[i].key
    ensures var ops := states[n].txs[id].ops;
            ops[j].result == if ops[i].payload.deleted then None else Some(ops[i].payload.value)
  {
    RunSeesOwn(h, states, acts, n);
    assert OwnRead(states[n].txs[id].ops, states[n].txs[id].ops[j].key, i, j);
  }

  // ---------------------------------------------------------------- the engine

  lemma NextSeesOwn(h: Key -> Fp, e: E.Engine, a: E.Action, e': E.Engine)
    requires AllSeeOwn(e.sys) && ES.ReadsMatch(e) && E.Next(h, e, a, e')
    ensures AllSeeOwn(e'.sys)
  {
    match a {
      case TxStep(t) => StepSeesOwn(h, e.sys, t);
      case GetMove(id, hint, cached) => MoveSeesOwn(e, id, hint, cached);
      case _ =>
    }
  }

  lemma MoveSeesOwn(e: E.Engine, id: T.Id, hint: Option<Key>, cached: bool)
    requires AllSeeOwn(e.sys) && ES.ReadsMatch(e) && E.Getting(e, id) && P.CanMove(e.tree, E.GetOf(e, id), hint)
    ensures AllSeeOwn(E.AfterMove(e, id, hint, cached).sys)
  {
    var g := E.GetOf(e, id);
    var pos := P.Move(e.tree, g, hint, cached);
    if pos.Returned? {
      assert g.key !in e.sys.txs[id].writes by { assert ES.Waiting(e, id); }
      OneMoreGet(e.sys, id, g.key, pos.answer);
    }
  }

  lemma OneMoreGet(s: T.Sys, id: T.Id, k: Key, answer: Option<Bytes>)
    requires AllSeeOwn(s) && id in s.txs && k !in s.txs[id].writes
    ensures AllSeeOwn(s.(txs := s.txs[id := T.AfterGet(s.txs[id], k, s.now, answer)]))
  {
    GetSeesOwn(s.txs[id], k, s.now, answer);
  }

  lemma {:induction false} EngineSeesOwn(h: Key -> Fp, states: seq<E.Engine>, acts: seq<E.Action>, n: nat)
    requires E.Run(h, states, acts) && n < |states|
    ensures AllSeeOwn(states[n].sys)
  {
    if n > 0 {
      EngineSeesOwn(h, states, acts, n - 1);
      ES.InvRun(h, states, acts, n - 1);
      NextSeesOwn(h, states[n - 1], acts[n - 1], states[n]);
    }
  }

  /** So it is in every run of the engine, whether or not its gets go wrong. */
  lemma EngineOwnWritesRead(h: Key -> Fp, states: seq<E.Engine>, acts: seq<E.Action>, n: nat, id: T.Id, i: nat, j: nat)
    requires E.Run(h, states, acts) && n < |states| && id in states[n].sys.txs
    requires var ops := states[n].sys.txs[id].ops;
             && i < j < |ops| && ops[i].Put? && ops[j].Get? && ops[j].key == ops[i].key
             && forall m :: i < m < j && ops[m].Put? ==> ops[m].key != ops[i].key
    ensures var ops := states[n].sys.txs[id].ops;
            ops[j].result == if ops[i].payload.deleted then None else Some(ops[i].payload.value)
  {
    EngineSeesOwn(h, states, acts, n);
    assert OwnRead(states[n].sys.txs[id].ops, states[n].sys.txs[id].ops[j].key, i, j);
  }

  /** And a read of a key that the transaction has not written returns, if none of the transaction's gets has gone
      wrong, the value that the last commit up to its snapshot gave the key, unless it is deleted or expired. */
  lemma EngineAnswers(h: Key -> Fp, states: seq<E.Engine>, acts: seq<E.Action>, n: nat, id: T.Id, j: nat, ts: nat,
      i: nat)
    requires E.Run(h, states, acts) && n < |states| && E.Clean(states, acts, n, id) && id in states[n].sys.txs
    requires var ops := states[n].sys.txs[id].ops; j < |ops| && ops[j].Get? && NoPut(ops, ops[j].key, j)
    ensures var t, log := states[n].sys.txs[id], states[n].sys.log;
            var op := t.ops[j];
            && (LastCommit(log, t.readTs, op.key, ts, i) ==>
                  var p := log[ts][i].payload;
                  op.result == if !p.deleted && (p.expiresAt <= 0 || op.now < p.expiresAt) then Some(p.value) else None)
            && (NeverPut(log, t.readTs, op.key) ==> op.result == None)
  {
    var t, log := states[n].sys.txs[id], states[n].sys.log;
    ES.EngineSnapshots(h, states, acts, n, id);
    var db, k := T.DbAt(log, t.readTs), t.ops[j].key;
    ExecuteOkIff(db, t.ops);
    assert RightAnswer(db, t.ops, j);
    if LastCommit(log, t.readTs, k, ts, i) { DbHolds(log, t.readTs, k, ts, i); }
    if NeverPut(log, t.readTs, k) { DbLacks(log, t.readTs, k); }
  }

  // ---------------------------------------------------------------- what a new transaction sees

  lemma LoggedStamped(h: Key -> Fp, s: T.Sys, ts: nat)
    requires S.Inv(h, s) && ts in s.log
    ensures ts <= s.o.nextTs
  {
    var t := S.CommitAt(h, s, ts);
    assert S.Holds(S.CTxs, h, s);
    assert S.TxSound(s.o, t);
  }

  /** A transaction begins at the horizon. If every timestamp up to a commit has been applied or given up, its snapshot
      contains that commit; if no batch is under way, it contains them all. */
  lemma BeginSees(h: Key -> Fp, s: T.Sys, id: T.Id, readOnly: bool)
    requires S.Inv(h, s) && id !in s.txs
    ensures var t := T.Step(h, s, T.BeginTx(id, readOnly)).txs[id];
            && t.readTs == s.o.appliedTs && t.status.Active? && t.readOnly == readOnly
            && (forall ts :: ts in s.log && (forall u :: u in s.o.awaiting ==> u > ts) ==> ts <= t.readTs)
            && ((forall i :: i in s.txs ==> !s.txs[i].status.Pending?) ==> forall ts :: ts in s.log ==> ts <= t.readTs)
  {
    assert S.Holds(S.COracle, h, s);
    forall ts | ts in s.log ensures ts <= s.o.nextTs { LoggedStamped(h, s, ts); }
    assert s.o.appliedTs == s.o.nextTs || s.o.appliedTs + 1 in s.o.awaiting;
    if forall i :: i in s.txs ==> !s.txs[i].status.Pending? { S.HorizonCatchesUp(h, s); }
  }

  /** So it is wherever a transaction begins in a run of the engine. */
  lemma EngineBeginSees(h: Key -> Fp, states: seq<E.Engine>, acts: seq<E.Action>, n: nat, id: T.Id, readOnly: bool)
    requires E.Run(h, states, acts) && n < |acts| && acts[n] == E.TxStep(T.BeginTx(id, readOnly))
    ensures id in states[n + 1].sys.txs
    ensures var s, t := states[n].sys, states[n + 1].sys.txs[id];
            && t.readTs == s.o.appliedTs
            && ((forall i :: i in s.txs ==> !s.txs[i].status.Pending?) ==> forall ts :: ts in s.log ==> ts <= t.readTs)
  {
    ES.InvRun(h, states, acts, n);
    assert E.Next(h, states[n], acts[n], states[n + 1]);
    BeginSees(h, states[n].sys, id, readOnly);
  }
}
