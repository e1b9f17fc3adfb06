/** The whole engine: transactions whose snapshot reads walk the tree step by step while batches are
    applied to it and flushes and compactions rearrange it. */
module EngineSystem {
  import opened Store
  import opened OracleSpec
  import T = Transactions
  import L = LsmStages
  import P = ReadPath

  /** `gets` maps a transaction to the get it is waiting for, `who` the other way round; `sample` is the
      watermark that the compaction under way has sampled. */
  datatype Engine = Engine(sys: T.Sys, tree: P.Tree, gets: map<T.Id, nat>, who: map<nat, T.Id>, sample: nat)

  datatype Action =
    | TxStep(action: T.Action)
    | GetStart(id: T.Id, key: Key, read: nat)
    | GetMove(id: T.Id, hint: Option<Key>, cached: bool)
    | Sample
    | Install(merge: L.Merge, files: seq<P.File>)
    | Maintain(maintenance: P.Action)

  /** The transaction an action belongs to, if it is one that a waiting transaction cannot take. */
  predicate Waits(gets: map<T.Id, nat>, a: T.Action) {
    match a
    case Read(id, _) => id in gets
    case Write(id, _, _) => id in gets
    case Close(id) => id in gets
    case Check(id) => id in gets
    case _ => false
  }

  ghost predicate TreeReady(e: Engine, a: T.Action) {
    match a
    case ApplyOne(_, _) => !e.tree.lsm.rotating && e.tree.mems != []
    case Read(id, k) => id in e.sys.txs && k in e.sys.txs[id].writes
    case _ => true
  }

  ghost predicate Getting(e: Engine, id: T.Id) {
    T.Runnable(e.sys, id) && id in e.gets && e.gets[id] in e.tree.gets
  }

  ghost function GetOf(e: Engine, id: T.Id): P.Get
    requires Getting(e, id)
  {
    e.tree.gets[e.gets[id]]
  }

  ghost predicate Enabled(h: Key -> Fp, e: Engine, a: Action) {
    match a
    case TxStep(t) => T.Enabled(e.sys, t) && !Waits(e.gets, t) && TreeReady(e, t)
    case GetStart(id, k, read) =>
      T.Runnable(e.sys, id) && id !in e.gets && k !in e.sys.txs[id].writes && read !in e.tree.gets
    case GetMove(id, hint, _) => Getting(e, id) && P.CanMove(e.tree, GetOf(e, id), hint)
    case Sample => true
    case Install(g, files) =>
      && e.tree.lsm.moving.None? && L.Mergeable(e.tree.lsm.stages, g, e.tree.lsm.now) && g.minReadTs == e.sample
      && P.CanInstall(e.tree, g, files)
    case Maintain(m) => P.CanMaintain(e.tree, m)
  }

  /** A transaction step, with what it does to the tree. */
  ghost function AfterTx(h: Key -> Fp, e: Engine, a: T.Action): Engine
    requires T.Enabled(e.sys, a) && TreeReady(e, a)
  {
    var sys := T.Step(h, e.sys, a);
    match a
    case ApplyOne(id, k) =>
      e.(sys := sys, tree := P.Inserted(e.tree, Cell(k, e.sys.txs[id].status.commitTs), e.sys.txs[id].writes[k]))
    case _ => e.(sys := sys, tree := e.tree.(lsm := e.tree.lsm.(horizon := sys.o.appliedTs, now := sys.now)))
  }

  /** One step further; an answer is recorded in the transaction as it came from the tree. */
  ghost function AfterMove(e: Engine, id: T.Id, hint: Option<Key>, cached: bool): Engine
    requires Getting(e, id) && P.CanMove(e.tree, GetOf(e, id), hint)
  {
    var read := e.gets[id];
    var tree := P.Moved(e.tree, read, hint, cached);
    match tree.gets[read].pos
    case Returned(answer) =>
      e.(tree := tree, gets := e.gets - {id},
         sys := e.sys.(txs := e.sys.txs[id := T.AfterGet(e.sys.txs[id], tree.gets[read].key, e.sys.now, answer)]))
    case _ => e.(tree := tree)
  }

  ghost predicate Next(h: Key -> Fp, e: Engine, a: Action, e': Engine) {
    Enabled(h, e, a) &&
    match a
    case TxStep(t) => e' == AfterTx(h, e, t)
    case GetStart(id, k, read) =>
      e' == e.(tree := P.Started(e.tree, read, k, e.sys.txs[id].readTs), gets := e.gets[id := read],
          who := e.who[read := id])
    case GetMove(id, hint, cached) => e' == AfterMove(e, id, hint, cached)
    case Sample => e' == e.(sample := MinRead(e.sys.o))
    case Install(g, files) => e' == e.(tree := P.Installed(e.tree, g, files))
    case Maintain(m) => e' == e.(tree := P.Maintained(e.tree, m))
  }

  /** A get of transaction `id` goes wrong in this step. */
  ghost predicate Misses(e: Engine, a: Action, id: T.Id) {
    a.GetMove? && a.id == id && Getting(e, id) && P.Missed(e.tree, GetOf(e, id), a.cached)
  }

  const Start := Engine(T.Start, P.Empty.(lsm := L.Empty.(horizon := 1)), map[], map[], 0)

  ghost predicate Run(h: Key -> Fp, states: seq<Engine>, acts: seq<Action>) {
    && |states| == |acts| + 1
    && states[0] == Start
    && forall i :: 0 <= i < |acts| ==> Next(h, states[i], acts[i], states[i + 1])
  }

  /** No get of transaction `id` has gone wrong in the first `n` steps. */
  ghost predicate Clean(states: seq<Engine>, acts: seq<Action>, n: nat, id: T.Id) {
    n <= |acts| < |states| && forall i :: 0 <= i < n ==> !Misses(states[i], acts[i], id)
  }
}
