/** Runs of the engine in which a get goes wrong and a transaction commits that does not replay, and one in
    which a get leaves a version out and nothing goes wrong. */
module EngineMisses {
  import opened Store
  import ByteOrder
  import opened OracleSpec
  import opened Entries
  import opened Tables
  import SST = SSTable
  import TF = TableFile
  import T = Transactions
  import S = Serializability
  import L = LsmStages
  import P = ReadPath
  import opened EngineSystem

  /** A fingerprint that tells the keys of these runs apart. */
  function FirstByte(k: Key): Fp {
    if k == [] then 0 else var b: int := k[0]; b + 1
  }

  /** Steps from `s` to `e`; from `Start` they are a run. */
  ghost predicate RunTo(states: seq<Engine>, acts: seq<Action>, s: Engine, e: Engine) {
    && |states| == |acts| + 1 && states[0] == s && states[|acts|] == e
    && forall i :: 0 <= i < |acts| ==> Next(FirstByte, states[i], acts[i], states[i + 1])
  }

  ghost predicate Reached(e: Engine, s: Engine := Start) {
    exists states, acts :: RunTo(states, acts, s, e)
  }

  lemma Go(e: Engine, a: Action, e': Engine, s: Engine := Start)
    requires Reached(e, s) && Next(FirstByte, e, a, e')
    ensures Reached(e', s)
  {
    var states, acts :| RunTo(states, acts, s, e);
    var ss, as' := states + [e'], acts + [a];
    forall i | 0 <= i < |as'| ensures Next(FirstByte, ss[i], as'[i], ss[i + 1]) {
      if i < |acts| { assert Next(FirstByte, states[i], acts[i], states[i + 1]); }
    }
    assert RunTo(ss, as', s, e');
  }

  lemma GoStart()
    ensures Reached(Start)
  {
    assert RunTo([Start], [], Start, Start);
  }

  // ---------------------------------------------------------------- transactions

  /** The tree knows the horizon and the time of the oracle. */
  ghost predicate Synced(e: Engine) {
    && e.tree.lsm.horizon == e.sys.o.appliedTs && e.tree.lsm.now == e.sys.now
    && !e.tree.lsm.rotating && e.tree.mems != []
  }

  lemma DoBegin(e: Engine, id: T.Id) returns (e': Engine)
    requires Reached(e) && Synced(e) && id !in e.sys.txs
    ensures Reached(e') && e' == e.(sys := T.DoBegin(e.sys, id, false)) && Synced(e')
  {
    e' := AfterTx(FirstByte, e, T.BeginTx(id, false));
    Go(e, TxStep(T.BeginTx(id, false)), e');
  }

  lemma DoWrite(e: Engine, id: T.Id, k: Key, p: Payload, s: Engine := Start) returns (e': Engine)
    requires Reached(e, s) && Synced(e) && T.Runnable(e.sys, id) && !e.sys.txs[id].readOnly && id !in e.gets
    ensures Reached(e', s) && e' == e.(sys := T.DoWrite(e.sys, id, k, p)) && Synced(e')
  {
    e' := AfterTx(FirstByte, e, T.Write(id, k, p));
    Go(e, TxStep(T.Write(id, k, p)), e', s);
  }

  lemma DoCheck(e: Engine, id: T.Id, s: Engine := Start) returns (e': Engine)
    requires Reached(e, s) && Synced(e) && T.Runnable(e.sys, id) && !e.sys.txs[id].readOnly && id !in e.gets
    requires e.sys.txs[id].writes != map[] && !T.Refused(FirstByte, e.sys, id)
    ensures Reached(e', s) && e' == e.(sys := T.DoCommit(FirstByte, e.sys, id)) && Synced(e')
  {
    e' := AfterTx(FirstByte, e, T.Check(id));
    Go(e, TxStep(T.Check(id)), e', s);
  }

  lemma DoApply(e: Engine, id: T.Id, k: Key, s: Engine := Start) returns (e': Engine)
    requires Reached(e, s) && Synced(e) && T.Enabled(e.sys, T.ApplyOne(id, k))
    ensures Reached(e', s) && Synced(e')
    ensures e' == e.(sys := T.DoApply(e.sys, id, k),
                     tree := P.Inserted(e.tree, Cell(k, e.sys.txs[id].status.commitTs), e.sys.txs[id].writes[k]))
  {
    e' := AfterTx(FirstByte, e, T.ApplyOne(id, k));
    Go(e, TxStep(T.ApplyOne(id, k)), e', s);
  }

  lemma DoFinish(e: Engine, id: T.Id, s: Engine := Start) returns (e': Engine)
    requires Reached(e, s) && Synced(e) && T.Enabled(e.sys, T.Finish(id))
    ensures Reached(e', s) && Synced(e')
    ensures var sys := T.DoFinish(e.sys, id);
            e' == e.(sys := sys, tree := e.tree.(lsm := e.tree.lsm.(horizon := sys.o.appliedTs)))
  {
    e' := AfterTx(FirstByte, e, T.Finish(id));
    Go(e, TxStep(T.Finish(id)), e', s);
  }

  /** A transaction that has not written yet writes one key and is stamped. */
  lemma Stamp(e: Engine, id: T.Id, k: Key, p: Payload, s: Engine := Start) returns (e': Engine)
    requires Reached(e, s) && Synced(e) && T.Runnable(e.sys, id) && id !in e.gets
    requires var t := e.sys.txs[id];
             && !t.readOnly && t.writes == map[]
             && forall c :: c in e.sys.o.history && c.commitTs > t.readTs ==> c.writes !! Fps(t, k)
    ensures Reached(e', s) && Synced(e') && e' == e.(sys := e'.sys)
    ensures var t, ts := T.AfterPut(e.sys.txs[id], k, p), e.sys.o.nextTs + 1;
            && e'.sys.txs == e.sys.txs[id := t.(status := T.Pending(ts, {}))]
            && e'.sys == e.sys.(o := e'.sys.o, txs := e'.sys.txs, owner := e'.sys.owner)
    ensures Stamped(e.sys.o, e'.sys.o, FirstByte(k))
  {
    var e1 := DoWrite(e, id, k, p, s);
    OneWrite(e.sys.txs[id], k, p);
    e' := DoCheck(e1, id, s);
  }

  lemma OneWrite(t: T.Tx, k: Key, p: Payload)
    requires t.writes == map[]
    ensures var t' := T.AfterPut(t, k, p);
            && t'.writes == map[k := p] && T.CheckFps(FirstByte, t') == Fps(t, k)
            && T.Fps(FirstByte, t'.writes.Keys) == {FirstByte(k)}
  {}

  /** What the conflict check looks at. */
  ghost function Fps(t: T.Tx, k: Key): set<Fp> {
    T.Fps(FirstByte, t.readSet) + {FirstByte(k)}
  }

  ghost predicate Stamped(o: OracleState, o': OracleState, fp: Fp) {
    && o'.nextTs == o.nextTs + 1 && o'.appliedTs == o.appliedTs && o'.awaiting == o.awaiting + {o.nextTs + 1}
    && o'.readers == o.readers
    && forall c :: c in o'.history ==> c in o.history || c == Committed(o.nextTs + 1, {fp})
  }

  /** The one write of a stamped transaction is applied, and it is done. */
  lemma Settle(e: Engine, id: T.Id, k: Key, p: Payload, s: Engine := Start) returns (e': Engine)
    requires Reached(e, s) && Synced(e) && id in e.sys.txs && e.sys.txs[id].status.Pending?
    requires e.sys.txs[id].writes == map[k := p] && e.sys.txs[id].status.applied == {}
    requires e.sys.txs[id].status.commitTs > e.sys.o.appliedTs
    ensures var ts := e.sys.txs[id].status.commitTs;
            && Reached(e', s) && Synced(e') && e'.gets == e.gets && e'.who == e.who && e'.sample == e.sample
            && e'.sys.o == MarkApplied(e.sys.o, ts) && e'.sys.now == e.sys.now
            && e'.sys.txs == e.sys.txs[id := e.sys.txs[id].(status := T.Applied(ts))]
            && e'.sys.log == e.sys.log[ts := e.sys.txs[id].ops]
            && e'.tree == WithCell(e.tree, Cell(k, ts), p, e'.sys.o.appliedTs)
  {
    var e1 := DoApply(e, id, k, s);
    assert e1.sys.txs[id].status.applied == {k};
    e' := DoFinish(e1, id, s);
  }

  /** The tree with one more version, and its horizon. */
  ghost function WithCell(t: P.Tree, c: Cell, p: Payload, horizon: nat): P.Tree
    requires t.mems != []
  {
    var t' := P.Inserted(t, c, p);
    t'.(lsm := t'.lsm.(horizon := horizon))
  }

  /** Nobody is committing, and what has been committed is visible. */
  ghost predicate Idle(o: OracleState) {
    && o.awaiting == {} && 1 <= o.appliedTs == o.nextTs && forall c :: c in o.history ==> c.commitTs <= o.nextTs
  }

  /** A transaction that writes one key, from begin to end. */
  lemma CommitOne(e: Engine, id: T.Id, k: Key, p: Payload) returns (e': Engine)
    requires Reached(e) && Synced(e) && Idle(e.sys.o) && id !in e.sys.txs && id !in e.gets
    ensures var ts := e.sys.o.nextTs + 1;
            && Reached(e') && Synced(e') && Idle(e'.sys.o) && e'.sys.o.nextTs == ts
            && e'.gets == e.gets && e'.who == e.who && e'.sample == e.sample && e'.sys.now == e.sys.now
            && e'.sys.log == e.sys.log[ts := [T.Put(k, p)]]
            && e'.sys.txs.Keys == e.sys.txs.Keys + {id}
                 && (forall i :: i in e.sys.txs ==> e'.sys.txs[i] == e.sys.txs[i])
            && e'.tree == WithCell(e.tree, Cell(k, ts), p, ts)
            && forall c :: c in e'.sys.o.history ==> c in e.sys.o.history || c == Committed(ts, {FirstByte(k)})
  {
    var e1 := DoBegin(e, id);
    var e2 := Stamp(e1, id, k, p);
    e' := Settle(e2, id, k, p);
    assert [] + [T.Put(k, p)] == [T.Put(k, p)];
    var o := e2.sys.o;
    assert o.awaiting - {o.nextTs} == {};
    assert AdvanceFrom(o.appliedTs, o.nextTs, {}) == o.nextTs;
  }

  // ---------------------------------------------------------------- gets

  /** Only the get has moved. */
  ghost predicate OnlyGet(e: Engine, e': Engine) {
    && e' == e.(tree := e'.tree)
    && e'.tree == e.tree.(gets := e'.tree.gets)
  }

  lemma DoMove(e: Engine, id: T.Id, hint: Option<Key>, cached: bool, s: Engine := Start) returns (e': Engine)
    requires Reached(e, s) && Synced(e) && Getting(e, id) && P.CanMove(e.tree, GetOf(e, id), hint)
    requires !P.Move(e.tree, GetOf(e, id), hint, cached).Returned?
    ensures Reached(e', s) && Synced(e') && OnlyGet(e, e') && Getting(e', id)
    ensures GetOf(e', id) == GetOf(e, id).(pos := P.Move(e.tree, GetOf(e, id), hint, cached))
  {
    e' := AfterMove(e, id, hint, cached);
    Go(e, GetMove(id, hint, cached), e', s);
  }

  /** The last step of a get. */
  lemma DoReturn(e: Engine, id: T.Id, hint: Option<Key>, cached: bool, s: Engine := Start) returns (e': Engine)
    requires Reached(e, s) && Synced(e) && Getting(e, id) && P.CanMove(e.tree, GetOf(e, id), hint)
    requires P.Move(e.tree, GetOf(e, id), hint, cached).Returned?
    ensures Reached(e', s) && Synced(e') && e'.gets == e.gets - {id} && e'.who == e.who && e'.sample == e.sample
    ensures var answer := P.Move(e.tree, GetOf(e, id), hint, cached).answer;
            e'.sys == e.sys.(txs := e.sys.txs[id := T.AfterGet(e.sys.txs[id], GetOf(e, id).key, e.sys.now, answer)])
    ensures e'.tree == e.tree.(gets := e'.tree.gets)
  {
    e' := AfterMove(e, id, hint, cached);
    Go(e, GetMove(id, hint, cached), e', s);
  }

  /** A get up to the moment when the search in the only memtable has ended. */
  lemma OpenGet(e: Engine, id: T.Id, k: Key, read: nat, hint: Option<Key>) returns (e': Engine)
    requires Reached(e) && Synced(e) && T.Runnable(e.sys, id) && id !in e.gets && k !in e.sys.txs[id].writes
    requires read !in e.tree.gets && e.tree.imm.None?
    requires P.IsPred(e.tree.mems[|e.tree.mems| - 1], k, hint)
    ensures Reached(e') && Synced(e') && e'.sys == e.sys && e'.sample == e.sample && e'.gets == e.gets[id := read]
    ensures e'.tree == e.tree.(gets := e'.tree.gets)
    ensures Getting(e', id) && GetOf(e', id) == P.Get(k, e.sys.txs[id].readTs, P.Scan([|e.tree.mems| - 1], hint))
  {
    var e1 := e.(tree := P.Started(e.tree, read, k, e.sys.txs[id].readTs), gets := e.gets[id := read],
        who := e.who[read := id]);
    Go(e, GetStart(id, k, read), e1);
    var e2 := DoMove(e1, id, None, false);
    var e3 := DoMove(e2, id, None, false);
    e' := DoMove(e3, id, hint, false);
  }

  /** Through empty levels. */
  lemma {:induction false} Walk(e: Engine, id: T.Id, l: nat, m: nat, s: Engine := Start) returns (e': Engine)
    requires Reached(e, s) && Synced(e) && Getting(e, id) && GetOf(e, id).pos == P.Copy(l)
        && l <= m < P.LEVELS == |e.tree.levels|
    requires forall i :: l <= i < m ==> e.tree.levels[i] == []
    ensures Reached(e', s) && Synced(e') && OnlyGet(e, e') && Getting(e', id)
        && GetOf(e', id) == GetOf(e, id).(pos := P.Copy(m))
    decreases m - l
  {
    if l == m {
      e' := e;
    } else {
      var e1 := DoMove(e, id, None, false, s);
      var e2 := DoMove(e1, id, None, false, s);
      e' := Walk(e2, id, l + 1, m, s);
    }
  }

  // ---------------------------------------------------------------- flushes and compactions

  /** No flush and no compaction is under way. */
  ghost predicate Still(t: P.Tree) {
    && !t.lsm.rotating && !t.lsm.flushed && t.lsm.moving.None? && t.imm.None? && t.mems != []
    && t.lsm.stages[L.IMM] == map[] && t.lsm.stages[L.MEM] == t.mems[|t.mems| - 1] && |t.levels| == P.LEVELS
  }

  lemma DoMaintain(e: Engine, a: P.Action) returns (e': Engine)
    requires Reached(e) && P.CanMaintain(e.tree, a)
    ensures Reached(e') && e' == e.(tree := P.Maintained(e.tree, a))
  {
    e' := e.(tree := P.Maintained(e.tree, a));
    Go(e, Maintain(a), e');
  }

  datatype Lens = Lens

  ghost predicate ShowsCells(lens: Lens, f: P.File, cells: L.Stage) {
    TableOk(f.table) && RunMap(f.table.entries) == cells
  }

  /** The file holds these versions. The quantifier keeps its entries out of proofs about runs. */
  ghost predicate FileHolds(f: P.File, cells: L.Stage) {
    forall lens: Lens :: ShowsCells(lens, f, cells)
  }

  /** The active memtable becomes a table of level 0. */
  lemma Flush(e: Engine, f: P.File) returns (e': Engine)
    requires Reached(e) && Synced(e) && Still(e.tree) && f.id !in e.tree.made && FileHolds(f, e.tree.lsm.stages[L.MEM])
    ensures Reached(e') && Synced(e') && Still(e'.tree) && e' == e.(tree := e'.tree)
    ensures e'.tree.mems == e.tree.mems + [map[]] && e'.tree.levels == e.tree.levels[0 := e.tree.levels[0] + [f]]
    ensures e'.tree.made == e.tree.made + {f.id} && e'.tree.closed == e.tree.closed && e'.tree.gets == e.tree.gets
    ensures var l, l' := e.tree.lsm, e'.tree.lsm;
            && l'.stages[L.MEM] == map[] && l'.stages[L.L0] == l.stages[L.L0] + l.stages[L.MEM]
            && (forall a: L.Ix :: a > L.L0 ==> l'.stages[a] == l.stages[a]) && l'.flat == l.flat
  {
    var e1 := Rotate(e);
    e' := Sink(e1, f);
  }

  lemma Rotate(e: Engine) returns (e': Engine)
    requires Reached(e) && Still(e.tree)
    ensures Reached(e') && e' == e.(tree := e'.tree)
    ensures var t, s := e.tree, e.tree.lsm.stages;
            e'.tree == t.(lsm := t.lsm.(stages := s[L.IMM := s[L.MEM]][L.MEM := map[]]), mems := t.mems + [map[]],
                imm := Some(|t.mems| - 1))
  {
    var e1 := DoMaintain(e, P.RotateImm);
    e' := DoMaintain(e1, P.RotateMem);
  }

  lemma Sink(e: Engine, f: P.File) returns (e': Engine)
    requires Reached(e) && !e.tree.lsm.rotating && !e.tree.lsm.flushed && e.tree.lsm.moving.None?
        && |e.tree.levels| == P.LEVELS
    requires f.id !in e.tree.made && FileHolds(f, e.tree.lsm.stages[L.IMM])
    ensures Reached(e') && e' == e.(tree := e'.tree)
    ensures var t, s := e.tree, e.tree.lsm.stages;
            e'.tree == t.(lsm := t.lsm.(stages := s[L.L0 := s[L.L0] + s[L.IMM]][L.IMM := map[]]), imm := None,
                          levels := t.levels[0 := t.levels[0] + [f]], made := t.made + {f.id})
  {
    assert ShowsCells(Lens, f, e.tree.lsm.stages[L.IMM]);
    var e1 := DoMaintain(e, P.InstallL0(Some(f)));
    e' := DoMaintain(e1, P.ClearImm);
  }

  // ---------------------------------------------------------------- a commit that does not replay

  lemma {:induction false} DbSame(log: map<nat, seq<T.Op>>, log': map<nat, seq<T.Op>>, t: nat)
    requires forall i :: i <= t ==> (i in log <==> i in log') && (i in log ==> log[i] == log'[i])
    ensures T.DbAt(log, t) == T.DbAt(log', t)
  {
    if t > 0 { DbSame(log, log', t - 1); }
  }

  /** One write, of another key. */
  ghost predicate Elsewhere(ops: seq<T.Op>, k: Key) {
    |ops| == 1 && ops[0].Put? && ops[0].key != k
  }

  /** The last write of a key is in the serial database. */
  lemma {:induction false} DbHas(log: map<nat, seq<T.Op>>, t0: nat, t: nat, k: Key, p: Payload)
    requires 0 < t0 <= t && t0 in log && log[t0] == [T.Put(k, p)]
    requires forall i :: t0 < i <= t && i in log ==> Elsewhere(log[i], k)
    ensures T.Find(T.DbAt(log, t), k) == Some(p)
  {
    if t0 < t {
      DbHas(log, t0, t - 1, k, p);
      if t in log { OnePut(T.DbAt(log, t - 1), log[t], k); }
    } else {
      OnePut(T.DbAt(log, t - 1), log[t0], k);
    }
  }

  lemma OnePut(db: map<Key, Payload>, ops: seq<T.Op>, k: Key)
    requires |ops| == 1 && ops[0].Put?
    ensures T.Find(T.Execute(db, ops).db, k) == if ops[0].key == k then Some(ops[0].payload) else T.Find(db, k)
  {
    assert ops[..0] == [];
  }

  lemma GetThenPut(db: map<Key, Payload>, k: Key, now: int, answer: Option<Bytes>, k2: Key, p2: Payload)
    ensures T.Execute(db, [T.Get(k, now, answer), T.Put(k2, p2)]).ok <==> answer == ObserveCell(T.Find(db, k), now)
  {
    var one: seq<T.Op> := [T.Get(k, now, answer)];
    var two: seq<T.Op> := [T.Get(k, now, answer), T.Put(k2, p2)];
    assert two[..1] == one && one[..0] == [];
    assert T.Execute(db, one[..0]) == T.Outcome(true, db, {});
    assert T.Execute(db, one).ok <==> answer == ObserveCell(T.Find(db, k), now);
    assert T.Execute(db, two).ok == T.Execute(db, one).ok;
  }

  ghost predicate Broken(e: Engine, id: T.Id) {
    Reached(e) && id in e.sys.txs && e.sys.txs[id].status.Applied? && !S.Replays(e.sys, id)
  }

  /** A transaction that was given a wrong answer writes another key and commits. */
  lemma CommitWrong(e: Engine, id: T.Id, k: Key, now: int, answer: Option<Bytes>, t0: nat, p: Payload)
    returns (e': Engine)
    requires Reached(e) && Answered(e, id, k, now, answer, t0, p) && answer != Observe(p, now)
    ensures Broken(e', id)
  {
    e' := CommitTold(e, id, k, now, answer, t0, p);
  }

  /** Transaction `id` has got `answer` for `k`, whose last committed payload is `p`, and can commit. */
  ghost predicate Answered(e: Engine, id: T.Id, k: Key, now: int, answer: Option<Bytes>, t0: nat, p: Payload) {
    && Synced(e) && T.Runnable(e.sys, id) && id !in e.gets && e.sys.o.appliedTs <= e.sys.o.nextTs
    && (var t := e.sys.txs[id];
        !t.readOnly && t.ops == [T.Get(k, now, answer)] && t.writes == map[] && t.readSet == {k})
    && (forall c :: c in e.sys.o.history && c.commitTs > e.sys.txs[id].readTs ==>
          c.writes !! {FirstByte(k), FirstByte([99])})
    && 0 < t0 <= e.sys.o.nextTs && t0 in e.sys.log && e.sys.log[t0] == [T.Put(k, p)]
    && forall i :: t0 < i <= e.sys.o.nextTs && i in e.sys.log ==> Elsewhere(e.sys.log[i], k)
  }

  /** It writes another key and commits; the commit replays if and only if the answer was right. */
  lemma CommitTold(e: Engine, id: T.Id, k: Key, now: int, answer: Option<Bytes>, t0: nat, p: Payload,
      s: Engine := Start)
    returns (e': Engine)
    requires Reached(e, s) && Answered(e, id, k, now, answer, t0, p)
    ensures Reached(e', s) && id in e'.sys.txs && e'.sys.txs[id].status.Applied?
    ensures e'.sys.txs[id].ops == [T.Get(k, now, answer), T.Put([99], Payload([9], false, 0))]
    ensures S.Replays(e'.sys, id) <==> answer == Observe(p, now)
  {
    var q := Payload([9], false, 0);
    assert Fps(e.sys.txs[id], [99]) == {FirstByte(k), FirstByte([99])};
    var e1 := Stamp(e, id, [99], q, s);
    e' := Settle(e1, id, [99], q, s);
    assert e'.sys.txs[id].ops == [T.Get(k, now, answer), T.Put([99], q)];
    ReplayIff(e.sys.log, e'.sys.log, e.sys.o.nextTs, k, now, answer, t0, p, [99], q);
  }

  /** The serial database holds the last committed payload. */
  lemma ReplayIff(log: map<nat, seq<T.Op>>, log': map<nat, seq<T.Op>>, t: nat, k: Key, now: int,
      answer: Option<Bytes>, t0: nat, p: Payload, k2: Key, p2: Payload)
    requires 0 < t0 <= t && t0 in log && log[t0] == [T.Put(k, p)]
    requires forall i :: t0 < i <= t && i in log ==> Elsewhere(log[i], k)
    requires forall i :: i <= t ==> (i in log <==> i in log') && (i in log ==> log[i] == log'[i])
    ensures T.Execute(T.DbAt(log', t), [T.Get(k, now, answer), T.Put(k2, p2)]).ok <==> answer == Observe(p, now)
  {
    DbSame(log, log', t);
    DbHas(log, t0, t, k, p);
    GetThenPut(T.DbAt(log', t), k, now, answer, k2, p2);
  }

  // ---------------------------------------------------------------- a smaller key linked meanwhile

  const VALUE := Payload([1], false, 0)

  lemma StartIsIdle()
    ensures Reached(Start) && Synced(Start) && Idle(Start.sys.o) && Still(Start.tree)
  {
    GoStart();
  }

  /** Key [2] is committed, [1] is stamped and not applied, and a third transaction begins. */
  lemma PassedSetup() returns (e: Engine)
    ensures Reached(e) && Synced(e) && e.gets == map[] && e.tree.imm.None? && 0 !in e.tree.gets
    ensures e.tree.mems == [map[Cell([2], 2) := VALUE]] && e.tree.levels == P.Empty.levels
    ensures e.sys.o.nextTs == 3 && e.sys.o.appliedTs == 2 && e.sys.now == 0
        && e.sys.log == map[2 := [T.Put([2], VALUE)]]
    ensures forall c :: c in e.sys.o.history && c.commitTs > 2 ==> c.writes == {FirstByte([1])}
    ensures T.Enabled(e.sys, T.ApplyOne(1, [1])) && e.sys.txs[1].status.commitTs == 3
    ensures 2 in e.sys.txs && e.sys.txs[2] == T.Tx(false, 2, [], map[], {}, T.Active, true)
  {
    StartIsIdle();
    var e1 := CommitOne(Start, 0, [2], VALUE);
    assert e1.tree.mems == [map[Cell([2], 2) := VALUE]];
    var e2 := DoBegin(e1, 1);
    var e3 := Stamp(e2, 1, [1], VALUE);
    e := DoBegin(e3, 2);
  }

  /** A get of [2] has ended its search in the memtable when [1] is inserted. */
  lemma PassedRead() returns (e: Engine)
    ensures Reached(e) && Synced(e) && e.gets == map[2 := 0] && Getting(e, 2)
    ensures GetOf(e, 2) == P.Get([2], 2, P.Scan([0], None)) && |e.tree.mems| == 1 && Cell([1], 3) in e.tree.mems[0]
    ensures |e.tree.levels| == P.LEVELS && forall i :: 0 <= i < P.LEVELS ==> e.tree.levels[i] == []
    ensures e.sys.o.nextTs == 3 && e.sys.o.appliedTs == 2 && e.sys.now == 0
    ensures e.sys.log == map[2 := [T.Put([2], VALUE)]]
    ensures forall c :: c in e.sys.o.history && c.commitTs > 2 ==> c.writes == {FirstByte([1])}
    ensures 2 in e.sys.txs && e.sys.txs[2] == T.Tx(false, 2, [], map[], {}, T.Active, true)
  {
    var e1 := PassedSetup();
    LtIrreflexive2();
    assert P.IsPred(e1.tree.mems[0], [2], None);
    var e2 := OpenGet(e1, 2, [2], 0, None);
    e := DoApply(e2, 1, [1]);
  }

  /** While a get of [2] is between the search in the memtable and the reload, key [1] is inserted. The get
      finds nothing, though [2] was committed before it began, and its transaction commits. */
  lemma PassedBreaks() returns (e: Engine)
    ensures Broken(e, 2)
  {
    var e1 := PassedRead();
    var e2 := Overtaken(e1);
    e := CommitWrong(e2, 2, [2], 0, None, 2, VALUE);
  }

  lemma LtIrreflexive2()
    ensures !ByteOrder.Lt([2], [2]) && ByteOrder.Lt([1], [2])
  {
    ByteOrder.LtIrreflexive([2]);
    ByteOrder.OneByte(1, 2);
  }

  lemma Overtaken(e: Engine) returns (e': Engine)
    requires Reached(e) && Synced(e) && Getting(e, 2) && GetOf(e, 2).key == [2] && GetOf(e, 2).pos == P.Scan([0], None)
    requires |e.tree.mems| == 1 && Cell([1], 3) in e.tree.mems[0] && |e.tree.levels| == P.LEVELS
    requires forall i :: 0 <= i < P.LEVELS ==> e.tree.levels[i] == []
    ensures Reached(e') && Synced(e') && e'.gets == e.gets - {2}
    ensures e'.sys == e.sys.(txs := e.sys.txs[2 := T.AfterGet(e.sys.txs[2], [2], e.sys.now, None)])
  {
    LtIrreflexive2();
    assert P.Passed(e.tree.mems[0], [2], None);
    var e1 := DoMove(e, 2, None, false);
    var e2 := Walk(e1, 2, 0, 4);
    var e3 := DoMove(e2, 2, None, false);
    e' := DoReturn(e3, 2, None, false);
  }

  // ---------------------------------------------------------------- a table closed meanwhile

  /** A merge that keeps all there is in level 0 and in the bottom level. */
  ghost function WholeMerge(s: L.Stack): L.Merge {
    L.Merge(L.L0, L.BOTTOM, s[L.L0].Keys, s[L.BOTTOM].Keys, s[L.BOTTOM] + s[L.L0], 0)
  }

  lemma WholeInputs(s: L.Stack)
    ensures L.Inputs(s, WholeMerge(s)) == s[L.BOTTOM] + s[L.L0]
  {}

  lemma WholeMergeable(s: L.Stack, now: int)
    requires forall a: L.Ix :: L.L0 < a < L.BOTTOM ==> s[a] == map[]
    ensures L.Mergeable(s, WholeMerge(s), now)
  {
    WholeInputs(s);
    assert L.Collected(WholeMerge(s), L.Inputs(s, WholeMerge(s)), now);
  }

  lemma WholeInstalled(l: L.Lsm, g: L.Merge)
    requires g == WholeMerge(l.stages)
    ensures L.DoInstall(l, g).stages[L.BOTTOM] == l.stages[L.BOTTOM] + l.stages[L.L0]
  {
    var s := l.stages;
    assert (s[L.BOTTOM] - g.lower) + g.output == s[L.BOTTOM] + s[L.L0];
  }

  lemma OneFile(f: P.File, cells: L.Stage)
    requires FileHolds(f, cells)
    ensures LevelOk(P.Shown([f])) && KeyDisjoint(P.Shown([f])) && Content(P.Shown([f])) == cells
  {
    assert ShowsCells(Lens, f, cells);
    var ts := P.Shown([f]);
    assert ts == [f.table];
    forall e | e in f.table.entries
      ensures e.cell in Content(ts) && Content(ts)[e.cell] == e.payload { HeldInContent(ts, 0, e); }
    forall c | c in Content(ts) ensures c in cells {
      var i := ContentHeld(ts, c);
    }
  }

  /** All of level 0 goes into the bottom level, as one file. */
  lemma Compact(e: Engine, f: P.File) returns (e': Engine)
    requires Reached(e) && Synced(e) && Still(e.tree) && f.id !in e.tree.made && e.sample == 0
    requires FileHolds(f, e.tree.lsm.stages[L.BOTTOM] + e.tree.lsm.stages[L.L0])
    requires forall a: L.Ix :: L.L0 < a < L.BOTTOM ==> e.tree.lsm.stages[a] == map[]
    ensures Reached(e') && Synced(e') && Still(e'.tree) && e' == e.(tree := e'.tree)
    ensures e'.tree.levels == e.tree.levels[4 := [f]][0 := []] && e'.tree.made == e.tree.made + {f.id}
    ensures e'.tree.mems == e.tree.mems && e'.tree.closed == e.tree.closed && e'.tree.gets == e.tree.gets
    ensures var l, l' := e.tree.lsm, e'.tree.lsm;
            && l'.stages[L.BOTTOM] == l.stages[L.BOTTOM] + l.stages[L.L0] && l'.stages[L.L0] == map[]
            && forall a: L.Ix :: a < L.BOTTOM && a != L.L0 ==> l'.stages[a] == l.stages[a]
  {
    var e1 := PutIn(e, f);
    e' := TakeOut(e1, e.tree.lsm.stages[L.L0]);
  }

  lemma PutIn(e: Engine, f: P.File) returns (e': Engine)
    requires Reached(e) && e.tree.lsm.moving.None? && |e.tree.levels| == P.LEVELS && f.id !in e.tree.made
        && e.sample == 0
    requires FileHolds(f, e.tree.lsm.stages[L.BOTTOM] + e.tree.lsm.stages[L.L0])
    requires forall a: L.Ix :: L.L0 < a < L.BOTTOM ==> e.tree.lsm.stages[a] == map[]
    ensures Reached(e') && e' == e.(tree := e'.tree)
    ensures e'.tree == e.tree.(lsm := e'.tree.lsm, levels := e.tree.levels[4 := [f]], made := e.tree.made + {f.id})
    ensures var l, l' := e.tree.lsm, e'.tree.lsm;
            && l' == l.(stages := l'.stages, moving := Some(L.Move(L.L0, L.BOTTOM, l.stages[L.L0].Keys)),
                 floor := l'.floor, clock := l'.clock)
            && l'.stages[L.BOTTOM] == l.stages[L.BOTTOM] + l.stages[L.L0]
            && forall a: L.Ix :: a < L.BOTTOM ==> l'.stages[a] == l.stages[a]
  {
    var g := WholeMerge(e.tree.lsm.stages);
    WholeMergeable(e.tree.lsm.stages, e.tree.lsm.now);
    WholeInstalled(e.tree.lsm, g);
    OneFile(f, e.tree.lsm.stages[L.BOTTOM] + e.tree.lsm.stages[L.L0]);
    assert P.Ids([f]) == {f.id};
    e' := e.(tree := P.Installed(e.tree, g, [f]));
    Go(e, Install(g, [f]), e');
  }

  lemma TakeOut(e: Engine, all: L.Stage) returns (e': Engine)
    requires Reached(e) && |e.tree.levels| == P.LEVELS
    requires e.tree.lsm.moving == Some(L.Move(L.L0, L.BOTTOM, all.Keys)) && e.tree.lsm.stages[L.L0] == all
    ensures Reached(e') && e' == e.(tree := e'.tree)
    ensures var l := e.tree.lsm;
            e'.tree == e.tree.(lsm := l.(stages := l.stages[L.L0 := map[]], moving := None),
                levels := e.tree.levels[0 := []])
  {
    assert P.Shown([]) == [] && Content([]) == map[];
    assert e.tree.lsm.stages[L.L0] - all.Keys == map[];
    e' := DoMaintain(e, P.Remove([]));
  }

  function EntryOf(k: Byte, ts: nat): Entry {
    Entry(Cell([k], ts), VALUE)
  }

  const TWO := map[Cell([2], 2) := VALUE]
  const ONE_THREE := map[Cell([1], 3) := VALUE, Cell([3], 4) := VALUE]
  const FIRST := P.File(0, Table([EntryOf(2, 2)]))
  const LOW := P.File(1, Table([EntryOf(2, 2)]))
  const SECOND := P.File(2, Table([EntryOf(1, 3), EntryOf(3, 4)]))
  const MERGED := P.File(3, Table([EntryOf(1, 3), EntryOf(2, 2), EntryOf(3, 4)]))

  lemma FirstFiles()
    ensures FileHolds(FIRST, TWO) && FileHolds(LOW, map[] + TWO)
  {
    var run := [EntryOf(2, 2)];
    assert RunMap(run) == TWO;
    assert map[] + TWO == TWO;
    assert ShowsCells(Lens, FIRST, TWO) && ShowsCells(Lens, LOW, TWO);
  }

  lemma SecondFile()
    ensures FileHolds(SECOND, ONE_THREE)
  {
    ByteOrder.OneByte(1, 3);
    var run := [EntryOf(1, 3), EntryOf(3, 4)];
    assert RunMap(run) == ONE_THREE;
    assert ShowsCells(Lens, SECOND, ONE_THREE);
  }

  lemma MergedFile()
    ensures FileHolds(MERGED, TWO + ONE_THREE)
  {
    ByteOrder.OneByte(1, 2);
    ByteOrder.OneByte(1, 3);
    ByteOrder.OneByte(2, 3);
    var run := [EntryOf(1, 3), EntryOf(2, 2), EntryOf(3, 4)];
    assert Sorted(run);
    ThreeCells(run);
    assert ShowsCells(Lens, MERGED, TWO + ONE_THREE);
  }

  lemma ThreeCells(run: seq<Entry>)
    requires run == [EntryOf(1, 3), EntryOf(2, 2), EntryOf(3, 4)] && Sorted(run)
    ensures RunMap(run) == TWO + ONE_THREE
  {
    var m, n := RunMap(run), TWO + ONE_THREE;
    assert EntryOf(1, 3) in run && EntryOf(2, 2) in run && EntryOf(3, 4) in run;
    forall c | c in m ensures c in n && m[c] == n[c] { assert Entry(c, m[c]) in run; }
  }

  lemma FlushedSetup() returns (e: Engine)
    ensures Reached(e) && Synced(e) && Idle(e.sys.o) && Still(e.tree) && e.gets == map[] && e.sample == 0
    ensures e.sys.o.nextTs == 2 && e.sys.now == 0 && e.sys.log == map[2 := [T.Put([2], VALUE)]] && e.sys.txs.Keys == {0}
    ensures e.tree.mems[|e.tree.mems| - 1] == map[] && e.tree.made == {0}
    ensures |e.tree.levels| == 5 && e.tree.levels[0] == [FIRST] && forall i :: 0 < i < 5 ==> e.tree.levels[i] == []
    ensures e.tree.closed == {} && e.tree.gets == map[]
    ensures e.tree.lsm.stages[L.L0] == TWO && e.tree.lsm.stages[L.BOTTOM] == map[]
    ensures forall a: L.Ix :: a < L.BOTTOM && a != L.L0 ==> e.tree.lsm.stages[a] == map[]
  {
    StartIsIdle();
    FirstFiles();
    var e1 := CommitOne(Start, 0, [2], VALUE);
    e := Flush(e1, FIRST);
  }

  /** Key [2] is committed, flushed and compacted into the bottom level. */
  lemma ClosedSetup() returns (e: Engine)
    ensures Reached(e) && Synced(e) && Idle(e.sys.o) && Still(e.tree) && e.gets == map[] && e.sample == 0
    ensures e.sys.o.nextTs == 2 && e.sys.now == 0 && e.sys.log == map[2 := [T.Put([2], VALUE)]] && e.sys.txs.Keys == {0}
    ensures e.tree.mems[|e.tree.mems| - 1] == map[] && e.tree.levels == [[], [], [], [], [LOW]] && e.tree.made == {0, 1}
    ensures e.tree.closed == {} && e.tree.gets == map[]
    ensures e.tree.lsm.stages[L.BOTTOM] == TWO
    ensures forall a: L.Ix :: a < L.BOTTOM ==> e.tree.lsm.stages[a] == map[]
  {
    var e1 := FlushedSetup();
    FirstFiles();
    e := Compact(e1, LOW);
  }

  /** A get of [2] has copied the bottom level. */
  lemma ClosedOpen(e: Engine) returns (e': Engine)
    requires Reached(e) && Synced(e) && Still(e.tree) && e.gets == map[] && e.sample == 0 && e.sys.txs.Keys == {0}
    requires e.tree.mems[|e.tree.mems| - 1] == map[]
    requires e.tree.gets == map[] && e.sys.o.appliedTs == 2
    ensures Reached(e') && Synced(e') && e'.gets == map[1 := 0] && e'.sample == 0
    ensures e'.sys.o == Begin(e.sys.o) && e'.sys == e.sys.(o := e'.sys.o, txs := e'.sys.txs)
    ensures e'.sys.txs.Keys == {0, 1} && e'.sys.txs[1] == T.Tx(false, 2, [], map[], {}, T.Active, true)
    ensures e'.tree == e.tree.(gets := e'.tree.gets)
    ensures Getting(e', 1) && GetOf(e', 1) == P.Get([2], 2, P.Scan([|e.tree.mems| - 1], None))
  {
    var e1 := DoBegin(e, 1);
    e' := OpenGet(e1, 1, [2], 0, None);
  }

  lemma ClosedGet(e: Engine) returns (e': Engine)
    requires Reached(e) && Synced(e) && Still(e.tree) && e.gets == map[] && e.sample == 0 && e.sys.txs.Keys == {0}
    requires e.tree.mems[|e.tree.mems| - 1] == map[] && e.tree.levels == [[], [], [], [], [LOW]]
    requires e.tree.gets == map[] && e.sys.o.appliedTs == 2
    ensures Reached(e') && Synced(e') && e'.gets == map[1 := 0] && e'.sample == 0
    ensures e'.sys.o == Begin(e.sys.o) && e'.sys == e.sys.(o := e'.sys.o, txs := e'.sys.txs)
    ensures e'.sys.txs.Keys == {0, 1} && e'.sys.txs[1] == T.Tx(false, 2, [], map[], {}, T.Active, true)
    ensures e'.tree == e.tree.(gets := e'.tree.gets)
    ensures Getting(e', 1) && GetOf(e', 1) == P.Get([2], 2, P.Probe(4, [LOW]))
  {
    var e2 := ClosedOpen(e);
    assert forall v: nat :: Cell([2], v) !in e2.tree.mems[|e2.tree.mems| - 1];
    var e3 := DoMove(e2, 1, None, false);
    var e4 := Walk(e3, 1, 0, 4);
    e' := DoMove(e4, 1, None, false);
  }

  /** Meanwhile two more keys are committed. */
  lemma TwoMore(e: Engine) returns (e': Engine)
    requires Reached(e) && Synced(e) && Idle(e.sys.o) && Still(e.tree) && e.gets == map[1 := 0] && e.sample == 0
    requires e.sys.o.nextTs == 2 && e.sys.txs.Keys == {0, 1} && e.sys.log == map[2 := [T.Put([2], VALUE)]]
    requires e.tree.lsm.stages[L.MEM] == map[]
    ensures Reached(e') && Synced(e') && Idle(e'.sys.o) && Still(e'.tree) && e'.gets == e.gets && e'.sample == 0
    ensures e'.sys.now == e.sys.now && e'.sys.o.nextTs == 4 && 1 in e'.sys.txs && e'.sys.txs[1] == e.sys.txs[1]
    ensures e'.sys.log == map[2 := [T.Put([2], VALUE)], 3 := [T.Put([1], VALUE)], 4 := [T.Put([3], VALUE)]]
    ensures forall c :: c in e'.sys.o.history && c.commitTs > 2 ==>
        c.writes == {FirstByte([1])} || c.writes == {FirstByte([3])}
    ensures e'.tree == e.tree.(lsm := e'.tree.lsm, mems := e'.tree.mems) && e'.tree.lsm.stages[L.MEM] == ONE_THREE
    ensures forall a: L.Ix :: a != L.MEM ==> e'.tree.lsm.stages[a] == e.tree.lsm.stages[a]
  {
    var e1 := CommitOne(e, 2, [1], VALUE);
    e' := CommitOne(e1, 3, [3], VALUE);
  }

  /** They are flushed and compacted into the bottom level, and the table that the get has copied is
      closed. */
  lemma Replace(e: Engine) returns (e': Engine)
    requires Reached(e) && Synced(e) && Still(e.tree) && e.sample == 0
    requires e.tree.levels == [[], [], [], [], [LOW]] && e.tree.made == {0, 1}
    requires e.tree.lsm.stages[L.BOTTOM] == TWO && e.tree.lsm.stages[L.MEM] == ONE_THREE
    requires forall a: L.Ix :: L.MEM < a < L.BOTTOM ==> e.tree.lsm.stages[a] == map[]
    ensures Reached(e') && Synced(e') && e' == e.(tree := e'.tree) && e'.tree.gets == e.tree.gets && 1 in e'.tree.closed
  {
    SecondFile();
    MergedFile();
    var e1 := Flush(e, SECOND);
    assert map[] + ONE_THREE == ONE_THREE;
    var e2 := Compact(e1, MERGED);
    e' := DoMaintain(e2, P.Close(1));
  }

  /** The get finds nothing in the closed table and nothing below it, and its transaction commits. */
  lemma ClosedBreaks() returns (e: Engine)
    ensures Broken(e, 1)
  {
    var e1 := ClosedSetup();
    var e2 := ClosedGet(e1);
    var e3 := TwoMore(e2);
    var e4 := Replace(e3);
    e := ClosedCommits(e4);
  }

  lemma ClosedCommits(e: Engine) returns (e': Engine)
    requires Reached(e) && Synced(e) && e.gets == map[1 := 0] && Getting(e, 1) && 1 in e.tree.closed
    requires GetOf(e, 1) == P.Get([2], 2, P.Probe(4, [LOW]))
    requires e.sys.txs[1] == T.Tx(false, 2, [], map[], {}, T.Active, true) && e.sys.now == 0 && Idle(e.sys.o)
    requires e.sys.log == map[2 := [T.Put([2], VALUE)], 3 := [T.Put([1], VALUE)], 4 := [T.Put([3], VALUE)]]
    requires e.sys.o.nextTs == 4 && forall c :: c in e.sys.o.history && c.commitTs > 2 ==>
        c.writes == {FirstByte([1])} || c.writes == {FirstByte([3])}
    ensures Broken(e', 1)
  {
    var e1 := FindsClosed(e);
    e' := CommitWrong(e1, 1, [2], 0, None, 2, VALUE);
  }

  lemma FindsClosed(e: Engine) returns (e': Engine)
    requires Reached(e) && Synced(e) && Getting(e, 1) && GetOf(e, 1) == P.Get([2], 2, P.Probe(4, [LOW]))
        && 1 in e.tree.closed
    ensures Reached(e') && Synced(e') && e'.gets == e.gets - {1}
    ensures e'.sys == e.sys.(txs := e.sys.txs[1 := T.AfterGet(e.sys.txs[1], [2], e.sys.now, None)])
  {
    assert TableOk(LOW.table);
    var e1 := DoMove(e, 1, None, false);
    e' := DoReturn(e1, 1, None, false);
  }

  /** A get of [2] has copied level 0, whose only table is then merged into the bottom level and closed.
      The probe leaves the version out, which is not wrong: the bottom level is still to be copied. The get
      goes on to `e''`, where it has returned the committed value and its transaction has committed and
      replays. */
  lemma SkipHarmless() returns (e: Engine, e': Engine, e'': Engine)
    ensures Reached(e) && Getting(e, 1) && GetOf(e, 1) == P.Get([2], 2, P.Probe(0, [FIRST]))
    ensures P.Looks(e.tree, GetOf(e, 1).pos) && P.LeavesOut(e.tree, GetOf(e, 1), false)
    ensures P.NewestCell(P.LooksIn(e.tree, GetOf(e, 1).pos), [2], 2) == Some(Cell([2], 2))
    ensures !P.Missed(e.tree, GetOf(e, 1), false)
    ensures Next(FirstByte, e, GetMove(1, None, false), e') && Reached(e'', e')
    ensures 1 in e''.sys.txs && e''.sys.txs[1].status.Applied? && S.Replays(e''.sys, 1)
    ensures T.Get([2], 0, Some(VALUE.value)) in e''.sys.txs[1].ops
  {
    e := SkipClosed();
    StillThere(e.tree, FIRST);
    e' := AfterMove(e, 1, None, false);
    e'' := SkipCommits(e, e');
  }

  /** What the run needs to know of the transaction that gets [2]. */
  ghost predicate Asks(e: Engine) {
    && Synced(e) && Getting(e, 1) && e.gets == map[1 := 0] && GetOf(e, 1).key == [2] && GetOf(e, 1).ts == 2
    && e.sys.txs[1] == T.Tx(false, 2, [], map[], {}, T.Active, true) && e.sys.log == map[2 := [T.Put([2], VALUE)]]
    && e.sys.o.appliedTs == e.sys.o.nextTs == 2 && e.sys.now == 0
    && forall c :: c in e.sys.o.history ==> c.commitTs <= 2
  }

  lemma SkipClosed() returns (e: Engine)
    ensures Reached(e) && Asks(e) && GetOf(e, 1).pos == P.Probe(0, [FIRST])
    ensures e.tree.closed == {0} && |e.tree.levels| == P.LEVELS && e.tree.lsm.stages[L.BOTTOM] == TWO
    ensures e.tree.levels[4] == [LOW] && forall i :: 0 < i < 4 ==> e.tree.levels[i] == []
  {
    var e1 := SkipGet();
    FirstFiles();
    var e2 := Compact(e1, LOW);
    e := DoMaintain(e2, P.Close(0));
    assert map[] + TWO == TWO;
  }

  lemma SkipCommits(e: Engine, e': Engine) returns (e'': Engine)
    requires Asks(e) && GetOf(e, 1).pos == P.Probe(0, [FIRST]) && e.tree.closed == {0} && |e.tree.levels| == P.LEVELS
    requires e.tree.levels[4] == [LOW] && forall i :: 0 < i < 4 ==> e.tree.levels[i] == []
    requires P.CanMove(e.tree, GetOf(e, 1), None) && e' == AfterMove(e, 1, None, false)
    ensures Reached(e'', e') && 1 in e''.sys.txs && e''.sys.txs[1].status.Applied? && S.Replays(e''.sys, 1)
    ensures T.Get([2], 0, Some(VALUE.value)) in e''.sys.txs[1].ops
  {
    assert GetOf(e', 1).pos == P.Probe(0, []);
    var e1 := SkipGoesOn(e');
    e'' := CommitTold(e1, 1, [2], 0, Some(VALUE.value), 2, VALUE, e');
  }

  /** A table with one entry, which is visible. */
  lemma OneEntryHit(x: Entry, ts: nat)
    requires x.cell.version <= ts
    ensures TableOk(Table([x])) && TableHit(Table([x]), x.cell.key, ts) == Some(x.payload)
  {
    var es, k := [x], x.cell.key;
    assert SST.Visible(es[0], k, Some(ts));
    SST.PickNewest(es, k, Some(ts), x);
    SST.PickIn(es, k, Some(ts));
    TF.LookupIff(es, k, Some(ts));
    if TF.TableCrosses(es, k, Some(ts)) { TF.TableCrossingFinds(es, k, Some(ts)); }
    TF.TableGetIn(es, k, Some(ts));
  }

  lemma SkipGoesOn(e: Engine) returns (e': Engine)
    requires Synced(e) && Getting(e, 1) && GetOf(e, 1) == P.Get([2], 2, P.Probe(0, []))
    requires 1 !in e.tree.closed && |e.tree.levels| == P.LEVELS
    requires e.tree.levels[4] == [LOW] && forall i :: 0 < i < 4 ==> e.tree.levels[i] == []
    ensures Reached(e', e) && Synced(e') && e'.gets == e.gets - {1}
    ensures e'.sys == e.sys.(txs := e.sys.txs[1 := T.AfterGet(e.sys.txs[1], [2], e.sys.now, Some(VALUE.value))])
  {
    assert RunTo([e], [], e, e);
    var e1 := DoMove(e, 1, None, false, e);
    var e2 := Walk(e1, 1, 1, 4, e);
    var e3 := DoMove(e2, 1, None, false, e);
    OneEntryHit(EntryOf(2, 2), 2);
    e' := DoReturn(e3, 1, None, false, e);
  }

  lemma SkipGet() returns (e: Engine)
    ensures Reached(e) && Asks(e) && Still(e.tree) && e.sample == 0 && e.tree.made == {0} && e.tree.closed == {}
    ensures GetOf(e, 1).pos == P.Probe(0, [FIRST])
    ensures e.tree.lsm.stages[L.L0] == TWO && e.tree.lsm.stages[L.BOTTOM] == map[]
    ensures forall a: L.Ix :: L.L0 < a < L.BOTTOM ==> e.tree.lsm.stages[a] == map[]
    ensures forall i :: 0 < i < |e.tree.levels| ==> e.tree.levels[i] == []
  {
    var e1 := FlushedSetup();
    var e2 := ClosedOpen(e1);
    assert forall v: nat :: Cell([2], v) !in e2.tree.mems[|e2.tree.mems| - 1];
    var e3 := DoMove(e2, 1, None, false);
    e := DoMove(e3, 1, None, false);
  }

  lemma StillThere(t: P.Tree, f: P.File)
    requires f == FIRST && 0 in t.closed && t.lsm.stages[L.BOTTOM] == TWO
    ensures var g := P.Get([2], 2, P.Probe(0, [f]));
            && P.Looks(t, g.pos) && P.LeavesOut(t, g, false) && !P.Missed(t, g, false)
            && P.NewestCell(P.LooksIn(t, g.pos), [2], 2) == Some(Cell([2], 2))
  {
    var g := P.Get([2], 2, P.Probe(0, [f]));
    assert TableOk(f.table);
    assert P.Looks(t, g.pos);
    assert Cell([2], 2) in RunMap(f.table.entries);
    assert L.Below(t.lsm, L.L0 + 1, Cell([2], 2)) by { assert Cell([2], 2) in t.lsm.stages[L.BOTTOM]; }
    assert P.Has(t, P.GoesOn(t, g.pos), Cell([2], 2));
  }

  const NEWER := Payload([2], false, 0)
  const THREE := map[Cell([2], 3) := NEWER]
  const LATER := P.File(1, Table([Entry(Cell([2], 3), NEWER)]))
  const BOTH := P.File(2, Table([Entry(Cell([2], 3), NEWER), EntryOf(2, 2)]))

  lemma LaterFiles()
    ensures FileHolds(LATER, THREE) && FileHolds(BOTH, map[] + (TWO + THREE))
  {
    var one, two := [Entry(Cell([2], 3), NEWER)], [Entry(Cell([2], 3), NEWER), EntryOf(2, 2)];
    assert RunMap(one) == THREE;
    assert Sorted(two) && two[0] in two && two[1] in two;
    assert RunMap(two) == TWO + THREE;
    assert map[] + (TWO + THREE) == TWO + THREE;
    assert ShowsCells(Lens, LATER, THREE) && ShowsCells(Lens, BOTH, TWO + THREE);
  }

  /** Two versions of [2] are committed and flushed into a table each. */
  lemma OlderSetup() returns (e: Engine)
    ensures Reached(e) && Synced(e) && Idle(e.sys.o) && Still(e.tree) && e.gets == map[] && e.sample == 0
    ensures e.sys.o.nextTs == 3 && e.sys.now == 0 && e.sys.txs.Keys == {0, 2}
    ensures e.sys.log == map[2 := [T.Put([2], VALUE)], 3 := [T.Put([2], NEWER)]]
    ensures e.tree.mems[|e.tree.mems| - 1] == map[] && e.tree.made == {0, 1}
    ensures |e.tree.levels| == 5 && e.tree.levels[0] == [FIRST, LATER]
    ensures forall i :: 0 < i < 5 ==> e.tree.levels[i] == []
    ensures e.tree.closed == {} && e.tree.gets == map[]
    ensures e.tree.lsm.stages[L.L0] == TWO + THREE && e.tree.lsm.stages[L.BOTTOM] == map[]
    ensures forall a: L.Ix :: L.L0 < a < L.BOTTOM ==> e.tree.lsm.stages[a] == map[]
  {
    var e1 := FlushedSetup();
    LaterFiles();
    var e2 := CommitOne(e1, 2, [2], NEWER);
    assert e2.tree.lsm.stages[L.MEM] == THREE;
    e := Flush(e2, LATER);
  }

  /** A get of [2] has copied level 0. */
  lemma OlderGet(e: Engine) returns (e': Engine)
    requires Reached(e) && Synced(e) && Still(e.tree) && e.gets == map[] && 1 !in e.sys.txs && e.sys.o.appliedTs == 3
    requires e.tree.mems[|e.tree.mems| - 1] == map[] && e.tree.gets == map[] && e.tree.levels[0] == [FIRST, LATER]
    ensures Reached(e') && Synced(e') && e'.gets == map[1 := 0] && e'.sample == e.sample
    ensures e'.sys.o == Begin(e.sys.o) && e'.sys == e.sys.(o := e'.sys.o, txs := e'.sys.txs)
    ensures 1 in e'.sys.txs && e'.sys.txs[1] == T.Tx(false, 3, [], map[], {}, T.Active, true)
    ensures e'.tree == e.tree.(gets := e'.tree.gets)
    ensures Getting(e', 1) && GetOf(e', 1) == P.Get([2], 3, P.Probe(0, [FIRST, LATER]))
  {
    var e1 := DoBegin(e, 1);
    var e2 := OpenGet(e1, 1, [2], 0, None);
    assert forall v: nat :: Cell([2], v) !in e2.tree.mems[|e2.tree.mems| - 1];
    var e3 := DoMove(e2, 1, None, false);
    e' := DoMove(e3, 1, None, false);
  }

  /** Level 0 is merged into the bottom level, and the newer of the two tables is closed before the get comes
      to it. The get finds the older version in the other table before it could come to the bottom level. */
  lemma OlderBreaks() returns (e: Engine)
    ensures Broken(e, 1)
  {
    var e1 := OlderSetup();
    var e2 := OlderGet(e1);
    LaterFiles();
    var e3 := Compact(e2, BOTH);
    var e4 := DoMaintain(e3, P.Close(1));
    var e5 := FindsOlder(e4);
    e := CommitWrong(e5, 1, [2], 0, Some(VALUE.value), 3, NEWER);
  }

  lemma FindsOlder(e: Engine) returns (e': Engine)
    requires Reached(e) && Synced(e) && Getting(e, 1) && GetOf(e, 1) == P.Get([2], 3, P.Probe(0, [FIRST, LATER]))
    requires 1 in e.tree.closed && 0 !in e.tree.closed
    ensures Reached(e') && Synced(e') && e'.gets == e.gets - {1}
    ensures e'.sys == e.sys.(txs := e.sys.txs[1 := T.AfterGet(e.sys.txs[1], [2], e.sys.now, Some(VALUE.value))])
  {
    OneEntryHit(Entry(Cell([2], 3), NEWER), 3);
    OneEntryHit(EntryOf(2, 2), 3);
    assert [FIRST, LATER][..1] == [FIRST];
    var e1 := DoMove(e, 1, None, false);
    e' := DoReturn(e1, 1, None, false);
  }

  // ---------------------------------------------------------------- versions that cross a restart point

  /** What the `j`-th commit writes: fifteen small keys, and then one key twice. */
  function PlanKey(j: nat): Key {
    if j < 15 then [j] else [15]
  }

  function PlanPayload(j: nat): Payload {
    Payload([if j < 15 then 0 else if j == 15 then 1 else 2], false, 0)
  }

  ghost function CellsOf(n: nat): L.Stage {
    if n == 0 then map[] else CellsOf(n - 1)[Cell(PlanKey(n - 1), n + 1) := PlanPayload(n - 1)]
  }

  lemma {:induction false} CommitMany(n: nat) returns (e: Engine)
    ensures Reached(e) && Synced(e) && Idle(e.sys.o) && Still(e.tree) && e.gets == map[] && e.sys.now == 0
    ensures e.sys.o.nextTs == n + 1 && (forall i :: i in e.sys.txs ==> i < n) && e.tree.mems == [CellsOf(n)]
    ensures e.tree.levels == P.Empty.levels && e.tree.made == {} && e.tree.closed == {} && e.tree.gets == map[]
    ensures n > 0 ==> n + 1 in e.sys.log && e.sys.log[n + 1] == [T.Put(PlanKey(n - 1), PlanPayload(n - 1))]
  {
    if n == 0 {
      StartIsIdle();
      e := Start;
    } else {
      var e1 := CommitMany(n - 1);
      e := CommitOne(e1, n - 1, PlanKey(n - 1), PlanPayload(n - 1));
    }
  }

  /** The commit that an entry of the table comes from. */
  function Swap(i: nat): nat {
    if i == 15 then 16 else if i == 16 then 15 else i
  }

  lemma {:induction false} InCells(n: nat, c: Cell)
    ensures c in CellsOf(n) ==>
        2 <= c.version < n + 2 && c.key == PlanKey(c.version - 2) && CellsOf(n)[c] == PlanPayload(c.version - 2)
    ensures 2 <= c.version < n + 2 && c.key == PlanKey(c.version - 2) ==> c in CellsOf(n)
  {
    if n > 0 { InCells(n - 1, c); }
  }

  const CROSSED := P.File(0, Table(SST.Crossing()))

  lemma PlanOf(i: nat)
    requires i < 17
    ensures SST.CrossingEntry(i) == Entry(Cell(PlanKey(Swap(i)), Swap(i) + 2), PlanPayload(Swap(i)))
  {}

  lemma CrossedEntry(es: seq<Entry>, n: nat, c: Cell)
    requires n == 17 == |es| && Sorted(es) && forall i :: 0 <= i < 17 ==> es[i] == SST.CrossingEntry(i)
    ensures c in RunMap(es) ==> c in CellsOf(n) && RunMap(es)[c] == CellsOf(n)[c]
    ensures c in CellsOf(n) ==> c in RunMap(es)
  {
    var m := RunMap(es);
    InCells(n, c);
    if c in m {
      var i :| 0 <= i < |es| && es[i] == Entry(c, m[c]);
      PlanOf(i);
    }
    if c in CellsOf(n) {
      var i := Swap(c.version - 2);
      PlanOf(i);
      assert es[i].cell == c && es[i] in es;
    }
  }

  lemma CrossedCells(n: nat)
    requires n == 17
    ensures FileHolds(CROSSED, CellsOf(n))
  {
    SST.CrossingStored();
    CrossedMap(n);
    assert ShowsCells(Lens, CROSSED, CellsOf(n));
  }

  lemma CrossedMap(n: nat)
    requires n == 17 && Sorted(SST.Crossing())
    ensures RunMap(SST.Crossing()) == CellsOf(n)
  {
    var es := SST.Crossing();
    forall c ensures c in RunMap(es) ==> c in CellsOf(n) && RunMap(es)[c] == CellsOf(n)[c]
      ensures c in CellsOf(n) ==> c in RunMap(es)
    {
      CrossedEntry(es, n, c);
    }
  }

  lemma CrossedHit()
    ensures TableOk(CROSSED.table) && TableHit(CROSSED.table, [15], 18) == Some(Payload([1], false, 0))
  {
    TF.TableMisses(Some(18));
  }

  /** Seventeen commits are flushed into one table. */
  lemma CrossedSetup() returns (e: Engine)
    ensures Reached(e) && Synced(e) && Idle(e.sys.o) && e.gets == map[] && e.sys.now == 0 && e.sys.o.nextTs == 18
    ensures 17 !in e.sys.txs && 18 in e.sys.log && e.sys.log[18] == [T.Put([15], Payload([2], false, 0))]
    ensures |e.tree.mems| == 2 && e.tree.mems[1] == map[] && e.tree.imm.None?
    ensures |e.tree.levels| == P.LEVELS && e.tree.levels[0] == [CROSSED]
    ensures e.tree.closed == {} && e.tree.gets == map[]
  {
    var n := 17;
    CrossedCells(n);
    var e1 := CommitMany(n);
    e := Flush(e1, CROSSED);
  }

  /** The get of [15] at 18 returns version 17. */
  lemma CrossedGet(e: Engine) returns (e': Engine)
    requires Reached(e) && Synced(e) && T.Runnable(e.sys, 17) && e.sys.txs[17].readTs == 18
        && e.sys.txs[17].writes == map[]
    requires e.gets == map[] && |e.tree.mems| == 2 && e.tree.mems[1] == map[] && e.tree.imm.None? && e.tree.closed == {}
    requires |e.tree.levels| == P.LEVELS && e.tree.levels[0] == [CROSSED] && e.tree.gets == map[]
    ensures Reached(e') && Synced(e') && e'.gets == map[]
    ensures e'.sys == e.sys.(txs := e.sys.txs[17 := T.AfterGet(e.sys.txs[17], [15], e.sys.now, Some([1]))])
  {
    assert forall v: nat :: Cell([15], v) !in e.tree.mems[1];
    var e1 := OpenGet(e, 17, [15], 0, None);
    var e2 := DoMove(e1, 17, None, false);
    var e3 := DoMove(e2, 17, None, false);
    e' := CrossedProbe(e3);
  }

  lemma CrossedProbe(e: Engine) returns (e': Engine)
    requires Reached(e) && Synced(e) && Getting(e, 17) && GetOf(e, 17) == P.Get([15], 18, P.Probe(0, [CROSSED]))
        && e.tree.closed == {}
    ensures Reached(e') && Synced(e') && e'.gets == e.gets - {17}
    ensures e'.sys == e.sys.(txs := e.sys.txs[17 := T.AfterGet(e.sys.txs[17], [15], e.sys.now, Some([1]))])
  {
    CrossedHit();
    e' := DoReturn(e, 17, None, false);
  }

  /** A transaction reads version 17 of a key at timestamp 18, though version 18 is in the same table, and
      commits. */
  lemma CrossingBreaks() returns (e: Engine)
    ensures Broken(e, 17)
  {
    var e1 := CrossedSetup();
    var e2 := DoBegin(e1, 17);
    var e3 := CrossedGet(e2);
    e := CommitWrong(e3, 17, [15], 0, Some([1]), 18, Payload([2], false, 0));
  }
}
