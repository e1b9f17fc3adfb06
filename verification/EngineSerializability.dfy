/** Serializability of the whole engine: of every transaction none of whose own gets has gone wrong. */
module EngineSerializability {
  import opened Store
  import opened OracleSpec
  import T = Transactions
  import S = Serializability
  import L = LsmStages
  import P = ReadPath
  import PR = ReadRefinement
  import opened EngineSystem

  /** The tree holds exactly the applied versions, and no compaction has gone past a snapshot. */
  ghost predicate SameStore(e: Engine) {
    var l := e.tree.lsm;
    && l.flat == e.sys.cells && l.horizon == e.sys.o.appliedTs && l.now == e.sys.now
    && l.floor <= e.sys.o.appliedTs && (forall r :: r in e.sys.o.readers ==> l.floor <= r)
    && e.sample <= MinRead(e.sys.o)
  }

  ghost predicate Waiting(e: Engine, id: T.Id) {
    && Getting(e, id) && e.gets[id] in e.who && e.who[e.gets[id]] == id
    && GetOf(e, id).ts == e.sys.txs[id].readTs && GetOf(e, id).key !in e.sys.txs[id].writes
    && !GetOf(e, id).pos.Returned?
  }

  ghost predicate ReadsMatch(e: Engine) {
    && (forall id :: id in e.gets ==> Waiting(e, id))
    && (forall read :: read in e.tree.gets && !e.tree.gets[read].pos.Returned? ==>
          read in e.who && e.who[read] in e.gets && e.gets[e.who[read]] == read)
  }

  ghost predicate Inv(h: Key -> Fp, e: Engine) {
    S.Inv(h, e.sys) && PR.Inv(e.tree) && SameStore(e) && ReadsMatch(e)
  }

  lemma InvStart(h: Key -> Fp)
    ensures Inv(h, Start)
  {
    S.InvStart(h);
    PR.InvEmpty();
    PR.StepPass(P.Empty, 1, 0);
    assert Start.tree == P.Empty.(lsm := P.Empty.lsm.(horizon := 1, now := 0));
  }

  /** A snapshot in use is registered with the watermark. */
  lemma Registered(h: Key -> Fp, s: T.Sys, id: T.Id)
    requires S.Inv(h, s) && T.Runnable(s, id)
    ensures s.txs[id].readTs in s.o.readers && s.txs[id].readTs <= s.o.appliedTs
  {
    assert S.Holds(S.CReaders, h, s) && S.Holds(S.CTxs, h, s);
    assert S.TxSound(s.o, s.txs[id]);
    assert id in S.Registered(s.txs, s.txs[id].readTs);
  }

  // ---------------------------------------------------------------- transaction steps

  lemma StepTx(h: Key -> Fp, e: Engine, a: T.Action)
    requires Inv(h, e) && Enabled(h, e, TxStep(a)) && !a.ApplyOne?
    ensures Inv(h, AfterTx(h, e, a))
  {
    var e' := AfterTx(h, e, a);
    S.InvStep(h, e.sys, a);
    S.StepKeepsPast(h, e.sys, a);
    PR.StepPass(e.tree, e'.sys.o.appliedTs, e'.sys.now);
    StepTxStore(h, e, a);
    StepTxReads(h, e, a);
  }

  lemma StepTxStore(h: Key -> Fp, e: Engine, a: T.Action)
    requires Inv(h, e) && Enabled(h, e, TxStep(a)) && !a.ApplyOne?
    ensures SameStore(AfterTx(h, e, a))
  {
    S.StepKeepsPast(h, e.sys, a);
    S.WatermarkGrows(h, e.sys, a);
    assert S.Holds(S.COracle, h, e.sys);
  }

  lemma StepTxReads(h: Key -> Fp, e: Engine, a: T.Action)
    requires Inv(h, e) && Enabled(h, e, TxStep(a)) && !a.ApplyOne?
    ensures ReadsMatch(AfterTx(h, e, a))
  {
    forall id | id in AfterTx(h, e, a).gets ensures Waiting(AfterTx(h, e, a), id) {
      StepTxWaiting(h, e, a, id);
    }
  }

  lemma StepTxWaiting(h: Key -> Fp, e: Engine, a: T.Action, id: T.Id)
    requires ReadsMatch(e) && Enabled(h, e, TxStep(a)) && !a.ApplyOne? && id in e.gets
    ensures Waiting(AfterTx(h, e, a), id)
  {
    assert Waiting(e, id);
    WaitersStay(h, e.sys, e.gets, a, id);
  }

  /** A transaction that waits for a get is not touched by the steps of others. */
  lemma WaitersStay(h: Key -> Fp, s: T.Sys, gets: map<T.Id, nat>, a: T.Action, id: T.Id)
    requires T.Enabled(s, a) && !Waits(gets, a) && id in gets && T.Runnable(s, id)
    ensures T.Runnable(T.Step(h, s, a), id) && T.Step(h, s, a).txs[id] == s.txs[id]
  {}

  lemma StepApply(h: Key -> Fp, e: Engine, id: T.Id, k: Key)
    requires Inv(h, e) && Enabled(h, e, TxStep(T.ApplyOne(id, k)))
    ensures Inv(h, AfterTx(h, e, T.ApplyOne(id, k)))
  {
    var a := T.ApplyOne(id, k);
    var e' := AfterTx(h, e, a);
    S.InvStep(h, e.sys, a);
    S.WatermarkGrows(h, e.sys, a);
    InsertReady(h, e, id, k);
    PR.StepInsert(e.tree, Cell(k, e.sys.txs[id].status.commitTs), e.sys.txs[id].writes[k]);
    forall i | i in e'.gets ensures Waiting(e', i) {
      assert Waiting(e, i);
    }
  }

  /** The oracle hands the tree each key's versions in increasing order, above the horizon. */
  lemma InsertReady(h: Key -> Fp, e: Engine, id: T.Id, k: Key)
    requires Inv(h, e) && Enabled(h, e, TxStep(T.ApplyOne(id, k)))
    ensures P.Enabled(e.tree, P.Insert(Cell(k, e.sys.txs[id].status.commitTs), e.sys.txs[id].writes[k]))
  {
    S.AppliedAboveHorizon(h, e.sys, id);
    forall d | d in e.tree.lsm.flat && d.key == k ensures d.version < e.sys.txs[id].status.commitTs {
      S.AppliedInOrder(h, e.sys, id, k, d);
    }
  }

  // ---------------------------------------------------------------- reads

  lemma StepGetStart(h: Key -> Fp, e: Engine, id: T.Id, k: Key, read: nat, e': Engine)
    requires Inv(h, e) && Next(h, e, GetStart(id, k, read), e')
    ensures Inv(h, e') && PR.OnWay(e'.tree, GetOf(e', id))
  {
    Registered(h, e.sys, id);
    PR.StepStartGet(e.tree, read, k, e.sys.txs[id].readTs);
    forall i | i in e'.gets ensures Waiting(e', i) {
      if i != id { assert Waiting(e, i); }
    }
  }

  /** Right or wrong, an answer keeps the books in order. */
  lemma StepGetMove(h: Key -> Fp, e: Engine, id: T.Id, hint: Option<Key>, cached: bool)
    requires Inv(h, e) && Enabled(h, e, GetMove(id, hint, cached))
    ensures Inv(h, AfterMove(e, id, hint, cached))
  {
    var e' := AfterMove(e, id, hint, cached);
    assert Waiting(e, id);
    PR.StepGet(e.tree, e.gets[id], hint, cached);
    match e'.tree.gets[e.gets[id]].pos {
      case Returned(answer) => S.StepTold(h, e.sys, id, GetOf(e, id).key, answer);
      case _ =>
    }
    MoveReads(e, id, hint, cached);
  }

  lemma MoveReads(e: Engine, id: T.Id, hint: Option<Key>, cached: bool)
    requires ReadsMatch(e) && Getting(e, id) && P.CanMove(e.tree, GetOf(e, id), hint)
    ensures ReadsMatch(AfterMove(e, id, hint, cached))
  {
    var e' := AfterMove(e, id, hint, cached);
    assert Waiting(e, id);
    forall i | i in e'.gets ensures Waiting(e', i) {
      assert Waiting(e, i);
    }
  }

  // ---------------------------------------------------------------- maintenance

  lemma StepInstall(h: Key -> Fp, e: Engine, g: L.Merge, files: seq<P.File>)
    requires Inv(h, e) && Enabled(h, e, Install(g, files))
    ensures P.Enabled(e.tree, P.Install(g, files)) && Inv(h, e.(tree := P.Installed(e.tree, g, files)))
  {
    var e' := e.(tree := P.Installed(e.tree, g, files));
    assert S.Holds(S.COracle, h, e.sys);
    assert IsMinRead(e.sys.o, MinRead(e.sys.o));
    forall read | read in e.tree.gets && !e.tree.gets[read].pos.Returned? ensures g.minReadTs <= e.tree.gets[read].ts {
      GetRegistered(h, e, read);
    }
    PR.InvAll(e.tree);
    PR.StepInstall(e.tree, g, files);
    KeepsReads(e, e');
  }

  lemma GetRegistered(h: Key -> Fp, e: Engine, read: nat)
    requires Inv(h, e) && read in e.tree.gets && !e.tree.gets[read].pos.Returned?
    ensures e.tree.gets[read].ts in e.sys.o.readers
  {
    assert Waiting(e, e.who[read]);
    Registered(h, e.sys, e.who[read]);
  }

  lemma KeepsReads(e: Engine, e': Engine)
    requires ReadsMatch(e) && e' == e.(tree := e'.tree) && e'.tree.gets == e.tree.gets
    ensures ReadsMatch(e')
  {
    forall i | i in e'.gets ensures Waiting(e', i) {
      assert Waiting(e, i);
    }
  }

  lemma MaintainFrame(t: P.Tree, m: P.Action)
    requires P.CanMaintain(t, m)
    ensures var t' := P.Maintained(t, m);
            t'.gets == t.gets && t'.lsm
                == t.lsm.(stages := t'.lsm.stages, rotating := t'.lsm.rotating, flushed := t'.lsm.flushed,
                    moving := t'.lsm.moving)
  {}

  lemma StepMaintain(h: Key -> Fp, e: Engine, m: P.Action)
    requires Inv(h, e) && Enabled(h, e, Maintain(m))
    ensures Inv(h, e.(tree := P.Maintained(e.tree, m)))
  {
    PR.StepMaintained(e.tree, m);
    MaintainFrame(e.tree, m);
    KeepsReads(e, e.(tree := P.Maintained(e.tree, m)));
  }

  // ---------------------------------------------------------------- runs

  lemma InvNext(h: Key -> Fp, e: Engine, a: Action, e': Engine)
    requires Inv(h, e) && Next(h, e, a, e')
    ensures Inv(h, e')
  {
    match a {
      case TxStep(t) =>
        if t.ApplyOne? { StepApply(h, e, t.id, t.key); } else { StepTx(h, e, t); }
      case GetStart(id, k, read) => StepGetStart(h, e, id, k, read, e');
      case GetMove(id, hint, cached) => StepGetMove(h, e, id, hint, cached);
      case Sample => KeepsReads(e, e'.(sample := e.sample));
      case Install(g, files) => StepInstall(h, e, g, files);
      case Maintain(m) => StepMaintain(h, e, m);
    }
  }

  lemma {:induction false} InvRun(h: Key -> Fp, states: seq<Engine>, acts: seq<Action>, n: nat)
    requires Run(h, states, acts) && n < |states|
    ensures Inv(h, states[n])
  {
    if n == 0 { InvStart(h); }
    else {
      InvRun(h, states, acts, n - 1);
      InvNext(h, states[n - 1], acts[n - 1], states[n]);
    }
  }

  // ---------------------------------------------------------------- one transaction

  /** What `id` has been told is right, and the get it waits for is on its way. */
  ghost predicate Served(e: Engine, id: T.Id) {
    && id in e.sys.txs && S.Told(e.sys.log, e.sys.txs[id])
    && (id in e.gets ==> Getting(e, id) && PR.OnWay(e.tree, GetOf(e, id)))
  }

  /** A step of the tree leaves the get of `id` on its way. */
  lemma TreeServes(h: Key -> Fp, e: Engine, a: P.Action, e': Engine, id: T.Id)
    requires Inv(h, e) && Inv(h, e') && Served(e, id) && id in e.gets && id in e'.gets && e'.gets[id] == e.gets[id]
    requires P.Enabled(e.tree, a) && e'.tree == P.Step(e.tree, a) && e'.tree.gets == e.tree.gets
    ensures Getting(e', id) && PR.OnWay(e'.tree, GetOf(e', id))
  {
    assert Waiting(e, id) && Waiting(e', id);
    var g := GetOf(e, id);
    PR.InvAll(e.tree);
    PR.InvAll(e'.tree);
    assert PR.GetOk(e.tree.lsm, e.tree.mems, g) && PR.GetOk(e'.tree.lsm, e'.tree.mems, g);
    PR.WayStays(e.tree, a, g);
  }

  lemma SameGetServes(e: Engine, e': Engine, id: T.Id)
    requires ReadsMatch(e) && ReadsMatch(e') && Served(e, id) && (id in e'.gets ==> id in e.gets)
    requires id in e.gets ==> e'.tree == e.tree.(gets := e'.tree.gets)
    requires id in e'.gets ==> e'.gets[id] == e.gets[id] && e.gets[id] in e'.tree.gets
                               && e'.tree.gets[e.gets[id]] == e.tree.gets[e.gets[id]]
    ensures id in e'.gets ==> Getting(e', id) && PR.OnWay(e'.tree, GetOf(e', id))
  {
    if id in e'.gets {
      assert Waiting(e', id);
      PR.SameWay(e.tree, e'.tree, GetOf(e, id));
    }
  }

  lemma TxServes(h: Key -> Fp, e: Engine, a: T.Action, e': Engine, id: T.Id)
    requires Inv(h, e) && Inv(h, e') && Next(h, e, TxStep(a), e') && Served(e, id)
    ensures Served(e', id)
  {
    S.ToldStep(h, e.sys, a, id);
    if id in e.gets {
      if a.ApplyOne? { ApplyServes(h, e, a.id, a.key, e', id); } else { PassServes(h, e, a, e', id); }
    }
  }

  lemma ApplyServes(h: Key -> Fp, e: Engine, i: T.Id, k: Key, e': Engine, id: T.Id)
    requires Inv(h, e) && Inv(h, e') && Next(h, e, TxStep(T.ApplyOne(i, k)), e') && Served(e, id) && id in e.gets
    ensures id in e'.gets && Getting(e', id) && PR.OnWay(e'.tree, GetOf(e', id))
  {
    InsertReady(h, e, i, k);
    TreeServes(h, e, P.Insert(Cell(k, e.sys.txs[i].status.commitTs), e.sys.txs[i].writes[k]), e', id);
  }

  lemma PassServes(h: Key -> Fp, e: Engine, a: T.Action, e': Engine, id: T.Id)
    requires Inv(h, e) && Inv(h, e') && Next(h, e, TxStep(a), e') && !a.ApplyOne? && Served(e, id) && id in e.gets
    ensures id in e'.gets && Getting(e', id) && PR.OnWay(e'.tree, GetOf(e', id))
  {
    S.StepKeepsPast(h, e.sys, a);
    TreeServes(h, e, P.Pass(e'.sys.o.appliedTs, e'.sys.now), e', id);
  }

  /** A get that does not go wrong tells its transaction what the flat versioned store holds. */
  lemma MoveServes(h: Key -> Fp, e: Engine, id: T.Id, hint: Option<Key>, cached: bool)
    requires Inv(h, e) && Enabled(h, e, GetMove(id, hint, cached)) && Served(e, id)
    requires !P.Missed(e.tree, GetOf(e, id), cached) && ReadsMatch(AfterMove(e, id, hint, cached))
    ensures Served(AfterMove(e, id, hint, cached), id)
  {
    var e', g := AfterMove(e, id, hint, cached), GetOf(e, id);
    assert Waiting(e, id);
    PR.InvAll(e.tree);
    PR.GetMoves(e.tree, g, hint, cached);
    if P.Move(e.tree, g, hint, cached).Returned? {
      assert e'.sys == T.DoRead(e.sys, id, g.key);
      S.ReadTold(h, e.sys, id, g.key);
    } else {
      assert Waiting(e', id);
      PR.SameWay(e.tree, e'.tree, GetOf(e', id));
    }
  }

  lemma ServedNext(h: Key -> Fp, e: Engine, a: Action, e': Engine, id: T.Id)
    requires Inv(h, e) && Next(h, e, a, e') && Served(e, id) && !Misses(e, a, id)
    ensures Served(e', id)
  {
    InvNext(h, e, a, e');
    match a {
      case TxStep(t) => TxServes(h, e, t, e', id);
      case GetStart(i, k, read) => StartServes(h, e, i, k, read, e', id);
      case GetMove(i, hint, cached) =>
        if i == id { MoveServes(h, e, id, hint, cached); } else { OtherMoves(e, i, hint, cached, e', id); }
      case Sample =>
      case _ => MaintainServes(h, e, a, e', id);
    }
  }

  lemma StartServes(h: Key -> Fp, e: Engine, i: T.Id, k: Key, read: nat, e': Engine, id: T.Id)
    requires Inv(h, e) && Inv(h, e') && Next(h, e, GetStart(i, k, read), e') && Served(e, id)
    ensures Served(e', id)
  {
    if i == id { StepGetStart(h, e, i, k, read, e'); } else { SameGetServes(e, e', id); }
  }

  lemma MaintainServes(h: Key -> Fp, e: Engine, a: Action, e': Engine, id: T.Id)
    requires Inv(h, e) && Inv(h, e') && Next(h, e, a, e') && (a.Install? || a.Maintain?) && Served(e, id)
    ensures Served(e', id)
  {
    if a.Install? {
      StepInstall(h, e, a.merge, a.files);
      if id in e.gets { TreeServes(h, e, P.Install(a.merge, a.files), e', id); }
    } else {
      MaintainFrame(e.tree, a.maintenance);
      if id in e.gets { TreeServes(h, e, a.maintenance, e', id); }
    }
  }

  lemma OtherMoves(e: Engine, i: T.Id, hint: Option<Key>, cached: bool, e': Engine, id: T.Id)
    requires ReadsMatch(e) && ReadsMatch(e') && Served(e, id) && i != id
    requires Getting(e, i) && P.CanMove(e.tree, GetOf(e, i), hint) && e' == AfterMove(e, i, hint, cached)
    ensures Served(e', id)
  {
    assert Waiting(e, i);
    if id in e.gets { assert Waiting(e, id); }
    SameGetServes(e, e', id);
  }

  lemma ServedFirst(h: Key -> Fp, e: Engine, a: Action, e': Engine, id: T.Id)
    requires Inv(h, e) && Next(h, e, a, e') && id !in e.sys.txs && id in e'.sys.txs
    ensures Served(e', id)
  {
    assert a.TxStep?;
    S.ToldFirst(h, e.sys, a.action, id);
    assert id in e.gets ==> Waiting(e, id);
  }

  lemma {:induction false} ServedRun(h: Key -> Fp, states: seq<Engine>, acts: seq<Action>, n: nat, id: T.Id)
    requires Run(h, states, acts) && n < |states| && Clean(states, acts, n, id) && id in states[n].sys.txs
    ensures Served(states[n], id)
  {
    if n > 0 {
      InvRun(h, states, acts, n - 1);
      if id in states[n - 1].sys.txs {
        ServedRun(h, states, acts, n - 1, id);
        ServedNext(h, states[n - 1], acts[n - 1], states[n], id);
      } else {
        ServedFirst(h, states[n - 1], acts[n - 1], states[n], id);
      }
    }
  }

  /** In every run of the engine, a successful commit none of whose own gets has gone wrong replays alone,
      in commit-timestamp order, with the answers the tree gave it; whatever other transactions were told. */
  lemma EngineSerializable(h: Key -> Fp, states: seq<Engine>, acts: seq<Action>, n: nat, id: T.Id)
    requires Run(h, states, acts) && n < |states| && Clean(states, acts, n, id)
    requires id in states[n].sys.txs && states[n].sys.txs[id].status.Applied?
    ensures S.Replays(states[n].sys, id)
  {
    InvRun(h, states, acts, n);
    ServedRun(h, states, acts, n, id);
    S.CommitsReplay(h, states[n].sys, id);
  }

  /** And every transaction none of whose gets has gone wrong reads its own snapshot. */
  lemma EngineSnapshots(h: Key -> Fp, states: seq<Engine>, acts: seq<Action>, n: nat, id: T.Id)
    requires Run(h, states, acts) && n < |states| && Clean(states, acts, n, id) && id in states[n].sys.txs
    ensures S.ReadsSnapshot(states[n].sys, id)
  {
    InvRun(h, states, acts, n);
    ServedRun(h, states, acts, n, id);
    S.SnapshotsHold(h, states[n].sys, id);
  }
}
