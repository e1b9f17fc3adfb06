/** Every run of concurrent transactions is equivalent to running its successful commits one at
    a time in commit-timestamp order. */
module Serializability {
  import opened Store
  import opened OracleSpec
  import opened Transactions

  // ---------------------------------------------------------------- invariant

  ghost predicate Stamped(t: Tx) { t.status.Pending? || t.status.Failed? || t.status.Aborted? || t.status.Applied? }

  /** Visible, or about to become visible. */
  ghost predicate Live(t: Tx) { t.status.Pending? || t.status.Applied? }

  /** A commit that has not been taken back. */
  ghost predicate Standing(t: Tx) { Live(t) || t.status.Failed? }

  /** The keys of `t` that have reached the store. */
  ghost function Stored(t: Tx): set<Key> {
    if t.status.Applied? then t.writes.Keys else if t.status.Pending? then t.status.applied else {}
  }

  ghost function Registered(txs: map<Id, Tx>, r: nat): set<Id> {
    set id | id in txs && txs[id].registered && txs[id].readTs == r
  }

  /** The watermark counts exactly the transactions that hold a snapshot. */
  ghost predicate ReadersCounted(readers: multiset<nat>, txs: map<Id, Tx>) {
    forall r: nat :: readers[r] == |Registered(txs, r)|
  }

  ghost predicate TxSound(o: OracleState, t: Tx) {
    && 1 <= t.readTs <= o.appliedTs
    && (t.status.Active? || t.status.Pending? || t.status.Failed? ==> t.registered)
    && (Stamped(t) ==> t.readTs < t.status.commitTs <= o.nextTs)
    && (t.status.Pending? ==> t.status.commitTs in o.awaiting && t.status.applied <= t.writes.Keys)
    && (Stamped(t) && !t.status.Pending? ==> t.status.commitTs !in o.awaiting)
  }

  ghost predicate TxsSound(o: OracleState, txs: map<Id, Tx>) {
    forall id :: id in txs ==> TxSound(o, txs[id])
  }

  /** Timestamps are handed out once. */
  ghost predicate OwnersSound(txs: map<Id, Tx>, owner: map<nat, Id>) {
    && (forall id :: id in txs && Stamped(txs[id]) ==>
          txs[id].status.commitTs in owner && owner[txs[id].status.commitTs] == id)
    && (forall ts :: ts in owner ==>
          owner[ts] in txs && Stamped(txs[owner[ts]]) && txs[owner[ts]].status.commitTs == ts)
  }

  /** The horizon only waits for commits that are still being applied. */
  ghost predicate AwaitedBySomeone(s: Sys) {
    forall ts :: ts in s.o.awaiting ==> ts in s.owner && s.owner[ts] in s.txs && s.txs[s.owner[ts]].status.Pending?
  }

  /** `t` is remembered, or too old to matter to any present or future snapshot. */
  ghost predicate NotForgotten(h: Key -> Fp, o: OracleState, t: Tx)
    requires Standing(t)
  {
    || Committed(t.status.commitTs, Fps(h, t.writes.Keys)) in o.history
    || Outdated(o, t.status.commitTs)
  }

  ghost predicate NothingNeededForgotten(h: Key -> Fp, o: OracleState, txs: map<Id, Tx>) {
    forall id :: id in txs && Standing(txs[id]) ==> NotForgotten(h, o, txs[id])
  }

  /** Only commits that were not taken back are remembered. */
  ghost predicate OnlyCommitsRemembered(h: Key -> Fp, s: Sys) {
    forall c :: c in s.o.history ==> Remembers(h, s.txs, s.owner, c)
  }

  ghost predicate Remembers(h: Key -> Fp, txs: map<Id, Tx>, owner: map<nat, Id>, c: Committed) {
    && c.commitTs in owner && owner[c.commitTs] in txs
    && Stamped(txs[owner[c.commitTs]]) && !txs[owner[c.commitTs]].status.Aborted?
    && c.writes == Fps(h, txs[owner[c.commitTs]].writes.Keys)
  }

  /** `other` did not write, between the snapshot and the commit of `t`, anything `t` used. */
  ghost predicate Apart(t: Tx, other: Tx)
    requires Live(t) && Live(other)
  {
    t.readTs < other.status.commitTs < t.status.commitTs ==> other.writes.Keys !! t.readSet + t.writes.Keys
  }

  ghost predicate Isolated(txs: map<Id, Tx>) {
    forall i, j :: i in txs && j in txs && Live(txs[i]) && Live(txs[j]) ==> Apart(txs[i], txs[j])
  }

  ghost predicate StoredSound(cells: map<Cell, Payload>, t: Tx) {
    forall k :: k in Stored(t) ==>
      k in t.writes && Cell(k, t.status.commitTs) in cells && cells[Cell(k, t.status.commitTs)] == t.writes[k]
  }

  ghost predicate CellsSound(s: Sys) {
    && (forall id :: id in s.txs ==> StoredSound(s.cells, s.txs[id]))
    && (forall c :: c in s.cells ==>
          c.version in s.owner && s.owner[c.version] in s.txs && c.key in Stored(s.txs[s.owner[c.version]]))
  }

  ghost predicate InLog(log: map<nat, seq<Op>>, t: Tx) {
    t.status.Applied? ==> t.status.commitTs in log && log[t.status.commitTs] == t.ops
  }

  ghost predicate LoggedByOwner(txs: map<Id, Tx>, owner: map<nat, Id>, ts: nat) {
    ts in owner && owner[ts] in txs && txs[owner[ts]].status.Applied?
  }

  ghost predicate LogSound(s: Sys) {
    && (forall id :: id in s.txs ==> InLog(s.log, s.txs[id]))
    && (forall ts :: ts in s.log ==> LoggedByOwner(s.txs, s.owner, ts))
  }

  /** Keys a transaction took from its snapshot rather than from its own writes. */
  ghost function SnapshotReads(ops: seq<Op>): set<Key> {
    if ops == [] then {}
    else
      var r := SnapshotReads(ops[..|ops| - 1]);
      var last := ops[|ops| - 1];
      if last.Get? && last.key !in WritesOf(ops[..|ops| - 1]) then r + {last.key} else r
  }

  ghost function WritesOf(ops: seq<Op>): map<Key, Payload> {
    if ops == [] then map[]
    else
      var w := WritesOf(ops[..|ops| - 1]);
      var last := ops[|ops| - 1];
      if last.Put? then w[last.key := last.payload] else w
  }

  /** A transaction's own record of its calls. */
  ghost predicate Recorded(t: Tx) {
    t.writes == WritesOf(t.ops) && t.readSet == SnapshotReads(t.ops)
  }

  ghost predicate AllRecorded(txs: map<Id, Tx>) {
    forall id :: id in txs ==> Recorded(txs[id])
  }

  /** What a transaction was told is what the serial database of its snapshot says. */
  ghost predicate Told(log: map<nat, seq<Op>>, t: Tx) {
    Execute(DbAt(log, t.readTs), t.ops).ok
  }

  /** The clauses of the invariant, by name. */
  datatype Clause =
    COracle | CReaders | CTxs | COwners | CAwaited | CHistory | CExact | CIsolated | CCells | CLog | CCalls

  ghost predicate Holds(c: Clause, h: Key -> Fp, s: Sys) {
    match c
    case COracle => Sound(s.o)
    case CReaders => ReadersCounted(s.o.readers, s.txs)
    case CTxs => TxsSound(s.o, s.txs)
    case COwners => OwnersSound(s.txs, s.owner)
    case CAwaited => AwaitedBySomeone(s)
    case CHistory => NothingNeededForgotten(h, s.o, s.txs)
    case CExact => OnlyCommitsRemembered(h, s)
    case CIsolated => Isolated(s.txs)
    case CCells => CellsSound(s)
    case CLog => LogSound(s)
    case CCalls => AllRecorded(s.txs)
  }

  ghost predicate Inv(h: Key -> Fp, s: Sys) {
    forall c: Clause :: Holds(c, h, s)
  }

  // ---------------------------------------------------------------- the serial database

  lemma {:induction false} ExecuteWrites(db: map<Key, Payload>, ops: seq<Op>)
    ensures Execute(db, ops).db == db + WritesOf(ops)
    ensures Execute(db, ops).own == WritesOf(ops).Keys
  {
    if ops != [] { ExecuteWrites(db, ops[..|ops| - 1]); }
  }

  /** A transaction's answers depend only on the keys it took from its snapshot. */
  lemma {:induction false} ExecuteAgrees(a: map<Key, Payload>, b: map<Key, Payload>, ops: seq<Op>)
    requires forall k :: k in SnapshotReads(ops) ==> Find(a, k) == Find(b, k)
    ensures Execute(a, ops).ok == Execute(b, ops).ok
  {
    if ops != [] {
      var front := ops[..|ops| - 1];
      ExecuteAgrees(a, b, front);
      ExecuteWrites(a, front);
      ExecuteWrites(b, front);
      var last := ops[|ops| - 1];
      if last.Get? && last.key !in WritesOf(front) {
        assert last.key in SnapshotReads(ops);
        assert Find(Execute(a, front).db, last.key) == Find(a, last.key);
        assert Find(Execute(b, front).db, last.key) == Find(b, last.key);
      }
    }
  }

  lemma {:induction false} DbAtFrame(log: map<nat, seq<Op>>, log': map<nat, seq<Op>>, t: nat)
    requires forall u :: u <= t ==> (u in log <==> u in log') && (u in log ==> log[u] == log'[u])
    ensures DbAt(log, t) == DbAt(log', t)
  {
    if t > 0 { DbAtFrame(log, log', t - 1); }
  }

  /** The logged commit at `ts`. */
  lemma CommitAt(h: Key -> Fp, s: Sys, ts: nat) returns (t: Tx)
    requires Inv(h, s) && ts in s.log
    ensures ts in s.owner && s.owner[ts] in s.txs && t == s.txs[s.owner[ts]]
    ensures t.status == Applied(ts) && t.ops == s.log[ts] && t.writes == WritesOf(t.ops)
  {
    assert Holds(CLog, h, s) && Holds(COwners, h, s) && Holds(CCalls, h, s);
    t := s.txs[s.owner[ts]];
    assert Recorded(t);
  }

  /** The commit a stored version came from. */
  lemma WriterOf(h: Key -> Fp, s: Sys, c: Cell) returns (u: Tx)
    requires Inv(h, s) && c in s.cells
    ensures c.version in s.owner && s.owner[c.version] in s.txs && u == s.txs[s.owner[c.version]]
    ensures Live(u) && u.status.commitTs == c.version && c.key in u.writes && c.key in Stored(u)
    ensures TxSound(s.o, u)
  {
    assert Holds(CCells, h, s) && Holds(COwners, h, s) && Holds(CTxs, h, s);
    u := s.txs[s.owner[c.version]];
    assert StoredSound(s.cells, u);
  }

  lemma StoredIsLogged(h: Key -> Fp, s: Sys, c: Cell)
    requires Inv(h, s) && c in s.cells && c.version <= s.o.appliedTs
    ensures c.version in s.log
  {
    var u := WriterOf(h, s, c);
    assert Holds(COracle, h, s) && Holds(CLog, h, s);
    assert u.status.Applied?;
  }

  /** At or below the horizon, a version is stored exactly when its commit is logged and wrote it. */
  lemma StoredAt(h: Key -> Fp, s: Sys, k: Key, ts: nat)
    requires Inv(h, s) && ts <= s.o.appliedTs
    ensures Cell(k, ts) in s.cells <==> ts in s.log && k in WritesOf(s.log[ts])
    ensures Cell(k, ts) in s.cells ==> s.cells[Cell(k, ts)] == WritesOf(s.log[ts])[k]
  {
    if Cell(k, ts) in s.cells { StoredIsLogged(h, s, Cell(k, ts)); }
    if ts in s.log {
      var t := CommitAt(h, s, ts);
      assert Holds(CCells, h, s);
      assert StoredSound(s.cells, t);
    }
  }

  lemma LoggedPositive(h: Key -> Fp, s: Sys)
    requires Inv(h, s)
    ensures 0 !in s.log
  {
    assert Holds(CTxs, h, s) && Holds(CLog, h, s) && Holds(COwners, h, s);
  }

  /** Up to the horizon, the newest stored version of a key is its value in the serial database. */
  lemma {:induction false} StoreIsSerial(h: Key -> Fp, s: Sys, k: Key, t: nat)
    requires Inv(h, s) && t <= s.o.appliedTs
    ensures Lookup(s.cells, k, t) == Find(DbAt(s.log, t), k)
  {
    StoredAt(h, s, k, t);
    LoggedPositive(h, s);
    if t > 0 {
      StoreIsSerial(h, s, k, t - 1);
      if t in s.log { ExecuteWrites(DbAt(s.log, t - 1), s.log[t]); }
    }
  }

  /** Commits in a range that leaves `k` alone leave its serial value alone. */
  lemma {:induction false} Untouched(h: Key -> Fp, s: Sys, k: Key, lo: nat, hi: nat)
    requires Inv(h, s) && lo <= hi
    requires forall id :: id in s.txs && s.txs[id].status.Applied? && lo < s.txs[id].status.commitTs <= hi ==>
               k !in s.txs[id].writes
    ensures Find(DbAt(s.log, lo), k) == Find(DbAt(s.log, hi), k)
    decreases hi
  {
    if lo < hi {
      Untouched(h, s, k, lo, hi - 1);
      if hi in s.log {
        var t := CommitAt(h, s, hi);
        ExecuteWrites(DbAt(s.log, hi - 1), s.log[hi]);
      }
    }
  }

  // ---------------------------------------------------------------- every step keeps the invariant

  lemma InvStart(h: Key -> Fp)
    ensures Inv(h, Start)
  {
    forall r: nat ensures Initial.readers[r] == |Registered(map[], r)| {
      assert Registered(map[], r) == {};
    }
    forall c: Clause ensures Holds(c, h, Start) {
      match c { case CReaders => case _ => }
    }
  }

  /** Stamped transactions are untouched but for their registration. */
  ghost predicate SameStamped(txs: map<Id, Tx>, txs': map<Id, Tx>) {
    && (forall i :: i in txs && Stamped(txs[i]) ==> i in txs' && txs'[i] == txs[i].(registered := txs'[i].registered))
    && (forall i :: i in txs' && Stamped(txs'[i]) ==> i in txs && txs'[i] == txs[i].(registered := txs'[i].registered))
  }

  ghost predicate Quiet(s: Sys, s': Sys) {
    && s'.cells == s.cells && s'.log == s.log && s'.owner == s.owner
    && s'.o == s.o.(readers := s'.o.readers)
    && SameStamped(s.txs, s'.txs)
  }

  lemma QuietIsolated(txs: map<Id, Tx>, txs': map<Id, Tx>)
    requires SameStamped(txs, txs') && Isolated(txs)
    ensures Isolated(txs')
  {
    forall i, j | i in txs' && j in txs' && Live(txs'[i]) && Live(txs'[j]) ensures Apart(txs'[i], txs'[j]) {
      assert Apart(txs[i], txs[j]);
    }
  }

  lemma QuietCells(s: Sys, s': Sys)
    requires Quiet(s, s') && CellsSound(s)
    ensures CellsSound(s')
  {
    forall id | id in s'.txs ensures StoredSound(s'.cells, s'.txs[id]) {
      if Stamped(s'.txs[id]) { assert StoredSound(s.cells, s.txs[id]); }
    }
  }

  /** A reader that leaves, or joins at the horizon, does not make a forgotten commit matter. */
  lemma QuietHistory(h: Key -> Fp, s: Sys, s': Sys)
    requires Quiet(s, s') && NothingNeededForgotten(h, s.o, s.txs)
    requires forall r :: r in s'.o.readers ==> r in s.o.readers || r == s.o.appliedTs
    ensures NothingNeededForgotten(h, s'.o, s'.txs)
  {
    forall id | id in s'.txs && Standing(s'.txs[id]) ensures NotForgotten(h, s'.o, s'.txs[id]) {
      assert NotForgotten(h, s.o, s.txs[id]);
    }
  }

  lemma QuietExact(h: Key -> Fp, s: Sys, s': Sys)
    requires Quiet(s, s') && OnlyCommitsRemembered(h, s)
    ensures OnlyCommitsRemembered(h, s')
  {
    forall c | c in s'.o.history ensures Remembers(h, s'.txs, s'.owner, c) {
      assert Remembers(h, s.txs, s.owner, c);
    }
  }

  lemma QuietOwners(s: Sys, s': Sys)
    requires Quiet(s, s') && OwnersSound(s.txs, s.owner)
    ensures OwnersSound(s'.txs, s'.owner)
  {}

  lemma QuietAwaited(s: Sys, s': Sys)
    requires Quiet(s, s') && AwaitedBySomeone(s)
    ensures AwaitedBySomeone(s')
  {}

  lemma QuietLog(s: Sys, s': Sys)
    requires Quiet(s, s') && LogSound(s)
    ensures LogSound(s')
  {}

  /** A step that only concerns unstamped transactions and readers. */
  lemma QuietStep(h: Key -> Fp, s: Sys, s': Sys)
    requires Inv(h, s) && Quiet(s, s')
    requires forall r :: r in s'.o.readers ==> r in s.o.readers || r == s.o.appliedTs
    requires Holds(CReaders, h, s') && Holds(CCalls, h, s') && Holds(CTxs, h, s')
    ensures Inv(h, s')
  {
    forall c: Clause ensures Holds(c, h, s') {
      match c {
        case COracle => assert Holds(COracle, h, s);
        case CReaders =>
        case CTxs =>
        case CCalls =>
        case CHistory => assert Holds(CHistory, h, s); QuietHistory(h, s, s');
        case CExact => assert Holds(CExact, h, s); QuietExact(h, s, s');
        case CIsolated => assert Holds(CIsolated, h, s); QuietIsolated(s.txs, s'.txs);
        case CCells => assert Holds(CCells, h, s); QuietCells(s, s');
        case COwners => assert Holds(COwners, h, s); QuietOwners(s, s');
        case CAwaited => assert Holds(CAwaited, h, s); QuietAwaited(s, s');
        case CLog => assert Holds(CLog, h, s); QuietLog(s, s');
      }
    }
  }

  /** Clauses about single transactions, after replacing one of them. */
  lemma OneTx(h: Key -> Fp, s: Sys, s': Sys, id: Id, t': Tx)
    requires Inv(h, s) && s'.o.appliedTs == s.o.appliedTs && s'.o.nextTs == s.o.nextTs
    requires s'.o.awaiting == s.o.awaiting && s'.log == s.log
    requires s'.txs == s.txs[id := t'] && TxSound(s'.o, t') && Recorded(t')
    ensures Holds(CTxs, h, s') && Holds(CCalls, h, s')
  {
    assert Holds(CTxs, h, s) && Holds(CCalls, h, s);
  }

  /** A running transaction made one more call, or gave up: nothing but its own record changes. */
  lemma OwnStep(h: Key -> Fp, s: Sys, s': Sys, id: Id, t': Tx)
    requires Inv(h, s) && Is(s, id, Active) && s' == s.(txs := s.txs[id := t']) && !Stamped(t')
    requires t'.registered == s.txs[id].registered && t'.readTs == s.txs[id].readTs
    requires Recorded(t')
    ensures Inv(h, s')
  {
    assert TxSound(s'.o, t') by { assert Holds(CTxs, h, s); }
    OneTx(h, s, s', id, t');
    assert Holds(CReaders, h, s);
    SameRegistered(h, s, s', id, t');
    QuietStep(h, s, s');
  }

  lemma JoinReaders(readers: multiset<nat>, txs: map<Id, Tx>, id: Id, t: Tx)
    requires ReadersCounted(readers, txs) && id !in txs && t.registered
    ensures ReadersCounted(readers + multiset{t.readTs}, txs[id := t])
  {
    forall r: nat ensures (readers + multiset{t.readTs})[r] == |Registered(txs[id := t], r)| {
      JoinRegistered(txs, id, t, r);
      assert readers[r] == |Registered(txs, r)|;
    }
  }

  lemma JoinRegistered(txs: map<Id, Tx>, id: Id, t: Tx, r: nat)
    requires id !in txs && t.registered
    ensures |Registered(txs[id := t], r)| == |Registered(txs, r)| + if r == t.readTs then 1 else 0
  {
    if r == t.readTs {
      assert Registered(txs[id := t], r) == Registered(txs, r) + {id};
    } else {
      assert Registered(txs[id := t], r) == Registered(txs, r);
    }
  }

  lemma LeaveReaders(readers: multiset<nat>, txs: map<Id, Tx>, id: Id)
    requires ReadersCounted(readers, txs) && id in txs && txs[id].registered
    ensures ReadersCounted(readers - multiset{txs[id].readTs}, txs[id := txs[id].(registered := false)])
  {
    var txs' := txs[id := txs[id].(registered := false)];
    forall r: nat ensures (readers - multiset{txs[id].readTs})[r] == |Registered(txs', r)| {
      if r == txs[id].readTs {
        assert Registered(txs', r) == Registered(txs, r) - {id};
      } else {
        assert Registered(txs', r) == Registered(txs, r);
      }
    }
  }

  lemma StepBegin(h: Key -> Fp, s: Sys, id: Id, ro: bool)
    requires Inv(h, s) && id !in s.txs
    ensures Inv(h, DoBegin(s, id, ro))
  {
    var s' := DoBegin(s, id, ro);
    assert Holds(COracle, h, s);
    assert Holds(CReaders, h, s);
    JoinReaders(s.o.readers, s.txs, id, s'.txs[id]);
    OneTx(h, s, s', id, s'.txs[id]);
    QuietStep(h, s, s');
  }

  lemma SameRegistered(h: Key -> Fp, s: Sys, s': Sys, id: Id, t': Tx)
    requires Holds(CReaders, h, s) && id in s.txs && s'.o.readers == s.o.readers
    requires s'.txs == s.txs[id := t']
    requires t'.registered == s.txs[id].registered && t'.readTs == s.txs[id].readTs
    ensures Holds(CReaders, h, s')
  {
    SameRegisteredTxs(s.o.readers, s.txs, id, t');
  }

  lemma SameRegisteredTxs(readers: multiset<nat>, txs: map<Id, Tx>, id: Id, t': Tx)
    requires ReadersCounted(readers, txs) && id in txs
    requires t'.registered == txs[id].registered && t'.readTs == txs[id].readTs
    ensures ReadersCounted(readers, txs[id := t'])
  {
    forall r: nat ensures readers[r] == |Registered(txs[id := t'], r)| {
      assert Registered(txs[id := t'], r) == Registered(txs, r);
    }
  }

  /** Whatever a transaction is told, its record of the call is in order. */
  lemma StepTold(h: Key -> Fp, s: Sys, id: Id, k: Key, answer: Option<Bytes>)
    requires Inv(h, s) && Runnable(s, id)
    ensures Inv(h, s.(txs := s.txs[id := AfterGet(s.txs[id], k, s.now, answer)]))
  {
    var t, t' := s.txs[id], AfterGet(s.txs[id], k, s.now, answer);
    assert Recorded(t) by { assert Holds(CCalls, h, s); }
    assert t'.ops[..|t'.ops| - 1] == t.ops;
    OwnStep(h, s, s.(txs := s.txs[id := t']), id, t');
  }

  /** An answer from the store is the right one. */
  lemma ReadTold(h: Key -> Fp, s: Sys, id: Id, k: Key)
    requires Inv(h, s) && Runnable(s, id) && Told(s.log, s.txs[id])
    ensures Told(s.log, DoRead(s, id, k).txs[id])
  {
    var t, t' := s.txs[id], DoRead(s, id, k).txs[id];
    assert t'.ops[..|t'.ops| - 1] == t.ops;
    var db := DbAt(s.log, t.readTs);
    ExecuteWrites(db, t.ops);
    assert Recorded(t) by { assert Holds(CCalls, h, s); }
    assert TxSound(s.o, t) by { assert Holds(CTxs, h, s); }
    StoreIsSerial(h, s, k, t.readTs);
  }

  lemma StepWrite(h: Key -> Fp, s: Sys, id: Id, k: Key, p: Payload)
    requires Inv(h, s) && Runnable(s, id)
    ensures Inv(h, DoWrite(s, id, k, p))
  {
    assert Recorded(s.txs[id]) by { assert Holds(CCalls, h, s); }
    WriteCalls(s.log, s.txs[id], k, p);
    OwnStep(h, s, DoWrite(s, id, k, p), id, AfterPut(s.txs[id], k, p));
  }

  lemma WriteCalls(log: map<nat, seq<Op>>, t: Tx, k: Key, p: Payload)
    requires Recorded(t)
    ensures Recorded(AfterPut(t, k, p)) && (Told(log, t) ==> Told(log, AfterPut(t, k, p)))
  {
    assert AfterPut(t, k, p).ops[..|t.ops|] == t.ops;
  }

  lemma StepClose(h: Key -> Fp, s: Sys, id: Id)
    requires Inv(h, s) && Is(s, id, Active)
    ensures Inv(h, DoClose(s, id))
  {
    assert Recorded(s.txs[id]) by { assert Holds(CCalls, h, s); }
    OwnStep(h, s, DoClose(s, id), id, s.txs[id].(status := Closed));
  }

  lemma StepUnregister(h: Key -> Fp, s: Sys, id: Id)
    requires Inv(h, s) && Enabled(s, Unregister(id))
    ensures Inv(h, DoUnregister(s, id))
  {
    var s' := DoUnregister(s, id);
    assert Quiet(s, s');
    assert Holds(CReaders, h, s') by {
      assert Holds(CReaders, h, s);
      LeaveReaders(s.o.readers, s.txs, id);
    }
    assert TxSound(s'.o, s'.txs[id]) by { assert Holds(CTxs, h, s); }
    assert Recorded(s'.txs[id]) by { assert Holds(CCalls, h, s); }
    OneTx(h, s, s', id, s'.txs[id]);
    QuietStep(h, s, s');
  }

  // ------------------------------------------------ steps that move a stamped transaction

  /** Two transactions that conflict checks and the store cannot tell apart. */
  ghost predicate SameFootprint(t: Tx, t': Tx)
    requires Live(t) && Live(t')
  {
    t'.readTs == t.readTs && t'.status.commitTs == t.status.commitTs && t'.writes == t.writes && t'.readSet == t.readSet
  }

  lemma MovedIsolated(txs: map<Id, Tx>, id: Id, t': Tx)
    requires Isolated(txs) && id in txs && Live(txs[id])
    requires Live(t') ==> SameFootprint(txs[id], t')
    ensures Isolated(txs[id := t'])
  {
    var txs' := txs[id := t'];
    forall i, j | i in txs' && j in txs' && Live(txs'[i]) && Live(txs'[j]) ensures Apart(txs'[i], txs'[j]) {
      assert Apart(txs[i], txs[j]);
    }
  }

  lemma MovedExact(h: Key -> Fp, s: Sys, s': Sys, id: Id, t': Tx)
    requires OnlyCommitsRemembered(h, s) && id in s.txs && s'.txs == s.txs[id := t']
    requires s'.owner == s.owner && s'.o.history == s.o.history
    requires Stamped(t') && !t'.status.Aborted? && t'.writes == s.txs[id].writes
    ensures Holds(CExact, h, s')
  {
    forall c | c in s'.o.history ensures Remembers(h, s'.txs, s'.owner, c) {
      assert Remembers(h, s.txs, s.owner, c);
    }
  }

  lemma MovedOwners(txs: map<Id, Tx>, owner: map<nat, Id>, id: Id, t': Tx)
    requires OwnersSound(txs, owner) && id in txs && Stamped(txs[id])
    requires Stamped(t') && t'.status.commitTs == txs[id].status.commitTs
    ensures OwnersSound(txs[id := t'], owner)
  {}

  lemma AdvanceSound(o: OracleState)
    requires 1 <= o.appliedTs <= o.nextTs
    requires forall t :: t in o.awaiting ==> o.appliedTs < t <= o.nextTs
    requires Increasing(o.history)
    requires forall c :: c in o.history ==> c.commitTs <= o.nextTs
    requires forall r :: r in o.readers ==> r <= o.appliedTs
    ensures Sound(Advance(o))
  {}

  // -------- Check, when it succeeds

  /** What a successful check leaves behind. */
  ghost predicate CommittedTo(o: OracleState, writes: set<Fp>, o': OracleState) {
    && Sound(o')
    && o'.nextTs == o.nextTs + 1 && o'.appliedTs == o.appliedTs && o'.readers == o.readers
    && o'.awaiting == o.awaiting + {o.nextTs + 1}
    && Committed(o.nextTs + 1, writes) in o'.history
    && (forall c :: c in o.history ==> c in o'.history || Outdated(o, c.commitTs))
    && (forall c :: c in o'.history ==> c in o.history || c == Committed(o.nextTs + 1, writes))
  }

  /** No present or future snapshot predates `ts`. */
  ghost predicate Outdated(o: OracleState, ts: nat) {
    ts <= o.appliedTs && forall r :: r in o.readers ==> ts <= r
  }

  lemma StampedTo(o: OracleState, writes: set<Fp>, history: seq<Committed>)
    requires Sound(o) && Increasing(history) && Committed(o.nextTs + 1, writes) in history
    requires forall c :: c in history ==> c.commitTs <= o.nextTs + 1
    requires forall c :: c in o.history ==> c in history || Outdated(o, c.commitTs)
    requires forall c :: c in history ==> c in o.history || c == Committed(o.nextTs + 1, writes)
    ensures CommittedTo(o, writes, Assign(o).(history := history))
  {}

  lemma AppendIncreasing(history: seq<Committed>, c: Committed)
    requires Increasing(history) && forall d :: d in history ==> d.commitTs < c.commitTs
    ensures Increasing(history + [c])
  {}

  lemma CommitAboveHistory(o: OracleState, writes: set<Fp>, m: nat)
    requires Sound(o) && Outdated(o, m)
    ensures CommittedTo(o, writes, CommitAbove(o, writes, m))
  {
    var c := Committed(o.nextTs + 1, writes);
    AppendIncreasing(o.history, c);
    var full := o.history + [c];
    assert forall d :: d in full <==> d in o.history || d == c;
    StampedTo(o, writes, Trim(full, m));
  }

  lemma CommitHistory(o: OracleState, writes: set<Fp>)
    requires Sound(o)
    ensures CommittedTo(o, writes, Commit(o, writes))
  {
    CommitAboveHistory(o, writes, MinRead(o));
  }

  lemma CheckIsolated(h: Key -> Fp, s: Sys, id: Id, t': Tx)
    requires Inv(h, s) && Runnable(s, id)
    requires !Refused(h, s, id)
    requires t' == s.txs[id].(status := Pending(s.o.nextTs + 1, {}))
    ensures Isolated(s.txs[id := t'])
  {
    var txs' := s.txs[id := t'];
    forall i, j | i in txs' && j in txs' && Live(txs'[i]) && Live(txs'[j]) ensures Apart(txs'[i], txs'[j]) {
      assert Holds(CTxs, h, s);
      if j == id {
        assert i != id ==> TxSound(s.o, s.txs[i]);
      } else if i == id {
        if t'.readTs < s.txs[j].status.commitTs { Uncontested(h, s, id, j); }
      } else {
        assert Holds(CIsolated, h, s);
        assert Apart(s.txs[i], s.txs[j]);
      }
    }
  }

  /** A passed check means no later live commit wrote what `id` used: none was forgotten. */
  lemma UncontestedFps(h: Key -> Fp, s: Sys, id: Id, j: Id)
    requires Inv(h, s) && Runnable(s, id) && j in s.txs && Standing(s.txs[j]) && !Refused(h, s, id)
    requires s.txs[id].readTs < s.txs[j].status.commitTs
    ensures Fps(h, s.txs[j].writes.Keys) !! CheckFps(h, s.txs[id])
  {
    var t, u := s.txs[id], s.txs[j];
    assert t.readTs in s.o.readers by {
      assert Holds(CReaders, h, s) && Holds(CTxs, h, s);
      assert id in Registered(s.txs, t.readTs);
    }
    assert NotForgotten(h, s.o, u) by { assert Holds(CHistory, h, s); }
    NoConflict(s.o.history, t.readTs, CheckFps(h, t), Committed(u.status.commitTs, Fps(h, u.writes.Keys)));
  }

  lemma Uncontested(h: Key -> Fp, s: Sys, id: Id, j: Id)
    requires Inv(h, s) && Runnable(s, id) && j in s.txs && Live(s.txs[j]) && !Refused(h, s, id)
    requires s.txs[id].readTs < s.txs[j].status.commitTs
    ensures s.txs[j].writes.Keys !! s.txs[id].readSet + s.txs[id].writes.Keys
  {
    UncontestedFps(h, s, id, j);
    var t, u := s.txs[id], s.txs[j];
    forall k | k in u.writes.Keys ensures k !in t.readSet + t.writes.Keys {
      assert h(k) in Fps(h, u.writes.Keys);
    }
  }

  lemma NoConflict(history: seq<Committed>, readTs: nat, fps: set<Fp>, c: Committed)
    requires !Conflicts(history, readTs, fps) && c in history && c.commitTs > readTs
    ensures c.writes !! fps
  {
    var n :| 0 <= n < |history| && history[n] == c;
  }

  lemma StepCheck(h: Key -> Fp, s: Sys, id: Id)
    requires Inv(h, s) && Runnable(s, id) && !Refused(h, s, id)
    ensures Inv(h, DoCommit(h, s, id))
  {
    CheckIsolated(h, s, id, s.txs[id].(status := Pending(s.o.nextTs + 1, {})));
    StepIsolated(h, s, id);
  }

  lemma StepIsolated(h: Key -> Fp, s: Sys, id: Id)
    requires Inv(h, s) && Runnable(s, id)
    requires Isolated(s.txs[id := s.txs[id].(status := Pending(s.o.nextTs + 1, {}))])
    ensures Inv(h, DoCommit(h, s, id))
  {
    CheckCommits(h, s, id);
    StepCheckTo(h, s, DoCommit(h, s, id), id, s.txs[id].(status := Pending(s.o.nextTs + 1, {})));
  }

  lemma CheckCommits(h: Key -> Fp, s: Sys, id: Id)
    requires Inv(h, s) && Runnable(s, id)
    ensures CommittedTo(s.o, Fps(h, s.txs[id].writes.Keys), DoCommit(h, s, id).o)
  {
    assert Holds(COracle, h, s);
    CommitHistory(s.o, Fps(h, s.txs[id].writes.Keys));
  }

  lemma StepCheckTo(h: Key -> Fp, s: Sys, s': Sys, id: Id, t': Tx)
    requires Inv(h, s) && Is(s, id, Active) && t' == s.txs[id].(status := Pending(s.o.nextTs + 1, {}))
    requires CommittedTo(s.o, Fps(h, t'.writes.Keys), s'.o) && Isolated(s'.txs)
    requires s'.txs == s.txs[id := t'] && s'.cells == s.cells && s'.log == s.log
    requires s'.owner == s.owner[s.o.nextTs + 1 := id]
    ensures Inv(h, s')
  {
    forall c: Clause ensures Holds(c, h, s') {
      match c {
        case COracle =>
        case CReaders => assert Holds(CReaders, h, s); SameRegistered(h, s, s', id, t');
        case CTxs => CheckTxs(h, s, s', id, t');
        case COwners => CheckOwners(h, s, s', id, t');
        case CAwaited => CheckAwaited(h, s, s', id, t');
        case CHistory => CheckHistory(h, s, s', id, t');
        case CExact => CheckExact(h, s, s', id, t');
        case CIsolated =>
        case CCells => CheckCells(h, s, id, t', s');
        case CLog => CheckLog(h, s, id, t', s');
        case CCalls => assert Holds(CCalls, h, s);
      }
    }
  }

  lemma CheckTxs(h: Key -> Fp, s: Sys, s': Sys, id: Id, t': Tx)
    requires Inv(h, s) && Is(s, id, Active) && t' == s.txs[id].(status := Pending(s.o.nextTs + 1, {}))
    requires s'.txs == s.txs[id := t'] && s'.o.appliedTs == s.o.appliedTs
    requires s'.o.nextTs == s.o.nextTs + 1 && s'.o.awaiting == s.o.awaiting + {s.o.nextTs + 1}
    ensures Holds(CTxs, h, s')
  {
    assert Holds(CTxs, h, s) && Holds(COracle, h, s);
    forall i | i in s'.txs ensures TxSound(s'.o, s'.txs[i]) {
      assert TxSound(s.o, s.txs[i]);
    }
  }

  lemma CheckOwners(h: Key -> Fp, s: Sys, s': Sys, id: Id, t': Tx)
    requires Inv(h, s) && Is(s, id, Active) && t' == s.txs[id].(status := Pending(s.o.nextTs + 1, {}))
    requires s'.txs == s.txs[id := t'] && s'.owner == s.owner[s.o.nextTs + 1 := id]
    ensures Holds(COwners, h, s')
  {
    assert Holds(CTxs, h, s) && Holds(COwners, h, s);
    forall i | i in s'.txs && Stamped(s'.txs[i])
      ensures s'.txs[i].status.commitTs in s'.owner && s'.owner[s'.txs[i].status.commitTs] == i
    {
      assert TxSound(s.o, s.txs[i]);
    }
  }

  lemma CheckAwaited(h: Key -> Fp, s: Sys, s': Sys, id: Id, t': Tx)
    requires Inv(h, s) && Is(s, id, Active) && t' == s.txs[id].(status := Pending(s.o.nextTs + 1, {}))
    requires s'.txs == s.txs[id := t'] && s'.owner == s.owner[s.o.nextTs + 1 := id]
    requires s'.o.awaiting == s.o.awaiting + {s.o.nextTs + 1}
    ensures Holds(CAwaited, h, s')
  {
    assert Holds(CAwaited, h, s);
  }

  lemma CheckExact(h: Key -> Fp, s: Sys, s': Sys, id: Id, t': Tx)
    requires Inv(h, s) && Is(s, id, Active) && t' == s.txs[id].(status := Pending(s.o.nextTs + 1, {}))
    requires CommittedTo(s.o, Fps(h, t'.writes.Keys), s'.o) && s'.txs == s.txs[id := t']
    requires s'.owner == s.owner[s.o.nextTs + 1 := id]
    ensures Holds(CExact, h, s')
  {
    assert Holds(CExact, h, s) && Holds(COracle, h, s);
    forall c | c in s'.o.history ensures Remembers(h, s'.txs, s'.owner, c) {
      if c in s.o.history { assert Remembers(h, s.txs, s.owner, c); }
    }
  }

  lemma CheckHistory(h: Key -> Fp, s: Sys, s': Sys, id: Id, t': Tx)
    requires Inv(h, s) && id in s.txs && t' == s.txs[id].(status := Pending(s.o.nextTs + 1, {}))
    requires CommittedTo(s.o, Fps(h, t'.writes.Keys), s'.o) && s'.txs == s.txs[id := t']
    ensures Holds(CHistory, h, s')
  {
    assert Holds(CHistory, h, s);
    forall i | i in s'.txs && Standing(s'.txs[i]) ensures NotForgotten(h, s'.o, s'.txs[i]) {
      if i != id { assert NotForgotten(h, s.o, s.txs[i]); }
    }
  }

  lemma CheckCells(h: Key -> Fp, s: Sys, id: Id, t': Tx, s': Sys)
    requires Inv(h, s) && Is(s, id, Active) && t' == s.txs[id].(status := Pending(s.o.nextTs + 1, {}))
    requires s'.txs == s.txs[id := t'] && s'.cells == s.cells && s'.owner == s.owner[s.o.nextTs + 1 := id]
    ensures Holds(CCells, h, s')
  {
    assert CellsSound(s) by { assert Holds(CCells, h, s); }
    forall i | i in s'.txs ensures StoredSound(s'.cells, s'.txs[i]) {
      if i != id { assert StoredSound(s.cells, s.txs[i]); }
    }
    forall c | c in s'.cells
      ensures c.version in s'.owner && s'.owner[c.version] in s'.txs && c.key in Stored(s'.txs[s'.owner[c.version]])
    {
      OlderCell(h, s, c);
    }
  }

  lemma OlderCell(h: Key -> Fp, s: Sys, c: Cell)
    requires Inv(h, s) && c in s.cells
    ensures c.version in s.owner && s.owner[c.version] in s.txs && c.key in Stored(s.txs[s.owner[c.version]])
    ensures c.version <= s.o.nextTs && !s.txs[s.owner[c.version]].status.Active?
  {
    var _ := WriterOf(h, s, c);
  }

  lemma CheckLog(h: Key -> Fp, s: Sys, id: Id, t': Tx, s': Sys)
    requires Inv(h, s) && Is(s, id, Active) && t' == s.txs[id].(status := Pending(s.o.nextTs + 1, {}))
    requires s'.txs == s.txs[id := t'] && s'.log == s.log && s'.owner == s.owner[s.o.nextTs + 1 := id]
    ensures Holds(CLog, h, s')
  {
    assert Holds(CLog, h, s) && Holds(COwners, h, s) && Holds(CTxs, h, s);
    forall ts | ts in s'.log
      ensures ts in s'.owner && s'.owner[ts] in s'.txs && s'.txs[s'.owner[ts]].status.Applied?
    {
      assert TxSound(s.o, s.txs[s.owner[ts]]);
    }
  }

  // -------- ApplyOne

  lemma StepApply(h: Key -> Fp, s: Sys, id: Id, k: Key)
    requires Inv(h, s) && Applying(s, id) && k in s.txs[id].writes
    ensures Inv(h, DoApply(s, id, k))
  {
    var s' := DoApply(s, id, k);
    var t' := s'.txs[id];
    forall c: Clause ensures Holds(c, h, s') {
      match c {
        case COracle => assert Holds(COracle, h, s);
        case CReaders => assert Holds(CReaders, h, s); SameRegistered(h, s, s', id, t');
        case CTxs => ApplyTxs(h, s, id, k);
        case COwners => assert Holds(COwners, h, s); MovedOwners(s.txs, s.owner, id, t');
        case CAwaited => assert Holds(CAwaited, h, s);
        case CHistory => assert Holds(CHistory, h, s); ForwardHistory(h, s.o, s'.o, s.txs, id, t');
        case CExact => assert Holds(CExact, h, s); MovedExact(h, s, s', id, t');
        case CIsolated => assert Holds(CIsolated, h, s); MovedIsolated(s.txs, id, t');
        case CCells => ApplyCells(h, s, id, k);
        case CLog => assert Holds(CLog, h, s); SameLog(h, s, s', id, t');
        case CCalls => assert Holds(CCalls, h, s); SameCalls(h, s, s', id, t');
      }
    }
  }

  lemma ApplyTxs(h: Key -> Fp, s: Sys, id: Id, k: Key)
    requires Inv(h, s) && Applying(s, id) && k in s.txs[id].writes
    ensures Holds(CTxs, h, DoApply(s, id, k))
  {
    var s' := DoApply(s, id, k);
    assert Holds(CTxs, h, s);
    forall i | i in s'.txs ensures TxSound(s'.o, s'.txs[i]) {
      assert TxSound(s.o, s.txs[i]);
    }
  }

  lemma ApplyCells(h: Key -> Fp, s: Sys, id: Id, k: Key)
    requires Inv(h, s) && Applying(s, id) && k in s.txs[id].writes
    ensures Holds(CCells, h, DoApply(s, id, k))
  {
    var s' := DoApply(s, id, k);
    assert Holds(CCells, h, s) && Holds(COwners, h, s) && Holds(CTxs, h, s);
    var t := s.txs[id];
    forall i | i in s'.txs ensures StoredSound(s'.cells, s'.txs[i]) {
      assert StoredSound(s.cells, s.txs[i]);
      if i != id && Stamped(s.txs[i]) { assert s.txs[i].status.commitTs != t.status.commitTs; }
    }
  }

  // -------- Finish, Fail, AbortCommit

  lemma AppliedHorizon(o: OracleState, ts: nat)
    requires Sound(o) && ts in o.awaiting
    ensures var o' := MarkApplied(o, ts);
            && Sound(o') && o.appliedTs <= o'.appliedTs && o'.nextTs == o.nextTs
            && o'.awaiting == o.awaiting - {ts} && o'.history == o.history && o'.readers == o.readers
  {
    AdvanceSound(o.(awaiting := o.awaiting - {ts}));
  }

  lemma ForwardTxs(o: OracleState, o': OracleState, txs: map<Id, Tx>, owner: map<nat, Id>, id: Id, t': Tx)
    requires TxsSound(o, txs) && OwnersSound(txs, owner) && id in txs && Stamped(txs[id])
    requires o.appliedTs <= o'.appliedTs && o'.nextTs == o.nextTs
    requires o'.awaiting == o.awaiting - {txs[id].status.commitTs} && TxSound(o', t')
    ensures TxsSound(o', txs[id := t'])
  {
    var txs' := txs[id := t'];
    forall i | i in txs' ensures TxSound(o', txs'[i]) {
      if i != id { assert TxSound(o, txs[i]); }
    }
  }

  lemma ForwardAwaited(h: Key -> Fp, s: Sys, s': Sys, id: Id, t': Tx)
    requires Inv(h, s) && id in s.txs && Stamped(s.txs[id]) && s'.txs == s.txs[id := t'] && s'.owner == s.owner
    requires s'.o.awaiting == s.o.awaiting - {s.txs[id].status.commitTs}
    ensures Holds(CAwaited, h, s')
  {
    assert Holds(CAwaited, h, s) && Holds(COwners, h, s);
  }

  lemma SameLog(h: Key -> Fp, s: Sys, s': Sys, id: Id, t': Tx)
    requires Holds(CLog, h, s) && id in s.txs && !s.txs[id].status.Applied? && !t'.status.Applied?
    requires s'.txs == s.txs[id := t'] && s'.owner == s.owner && s'.log == s.log
    ensures Holds(CLog, h, s')
  {
    forall ts | ts in s'.log ensures LoggedByOwner(s'.txs, s'.owner, ts) {
      assert LoggedByOwner(s.txs, s.owner, ts);
    }
  }

  lemma SameCalls(h: Key -> Fp, s: Sys, s': Sys, id: Id, t': Tx)
    requires Holds(CCalls, h, s) && id in s.txs && s'.txs == s.txs[id := t']
    requires t'.ops == s.txs[id].ops && t'.writes == s.txs[id].writes && t'.readSet == s.txs[id].readSet
    ensures Holds(CCalls, h, s')
  {
    forall i | i in s'.txs ensures Recorded(s'.txs[i]) {
      assert Recorded(s.txs[i]);
    }
  }

  lemma ForwardHistory(h: Key -> Fp, o: OracleState, o': OracleState, txs: map<Id, Tx>, id: Id, t': Tx)
    requires NothingNeededForgotten(h, o, txs) && id in txs
    requires Standing(t') ==>
               && Standing(txs[id]) && txs[id].status.commitTs == t'.status.commitTs && txs[id].writes == t'.writes
               && o'.history == o.history
    requires o.appliedTs <= o'.appliedTs && o'.readers == o.readers
    requires forall i :: i in txs && i != id && Standing(txs[i]) ==>
               var c := Committed(txs[i].status.commitTs, Fps(h, txs[i].writes.Keys)); c in o.history ==>
                   c in o'.history
    ensures NothingNeededForgotten(h, o', txs[id := t'])
  {
    var txs' := txs[id := t'];
    forall i | i in txs' && Standing(txs'[i]) ensures NotForgotten(h, o', txs'[i]) {
      assert NotForgotten(h, o, txs[i]);
    }
  }

  lemma StepFinish(h: Key -> Fp, s: Sys, id: Id)
    requires Inv(h, s) && Applying(s, id) && s.txs[id].status.applied == s.txs[id].writes.Keys
    ensures Inv(h, DoFinish(s, id))
  {
    var s' := DoFinish(s, id);
    var t, t' := s.txs[id], s'.txs[id];
    assert Holds(COracle, h, s) && Holds(CTxs, h, s);
    assert TxSound(s.o, t);
    AppliedHorizon(s.o, t.status.commitTs);
    forall c: Clause ensures Holds(c, h, s') {
      match c {
        case COracle =>
        case CReaders => assert Holds(CReaders, h, s); SameRegistered(h, s, s', id, t');
        case CTxs => assert Holds(COwners, h, s); ForwardTxs(s.o, s'.o, s.txs, s.owner, id, t');
        case COwners => assert Holds(COwners, h, s); MovedOwners(s.txs, s.owner, id, t');
        case CAwaited => ForwardAwaited(h, s, s', id, t');
        case CHistory => assert Holds(CHistory, h, s); ForwardHistory(h, s.o, s'.o, s.txs, id, t');
        case CExact => assert Holds(CExact, h, s); MovedExact(h, s, s', id, t');
        case CIsolated => assert Holds(CIsolated, h, s); MovedIsolated(s.txs, id, t');
        case CCells => assert Holds(CCells, h, s); SameStored(h, s, s', id, t');
        case CLog => assert Holds(CLog, h, s) && Holds(COwners, h, s); FinishLog(h, s, id);
        case CCalls => assert Holds(CCalls, h, s); SameCalls(h, s, s', id, t');
      }
    }
  }

  /** Changing a status without storing or withdrawing anything. */
  lemma SameStored(h: Key -> Fp, s: Sys, s': Sys, id: Id, t': Tx)
    requires Holds(CCells, h, s) && id in s.txs && s'.txs == s.txs[id := t']
    requires s'.cells == s.cells && s'.owner == s.owner
    requires Stored(t') == Stored(s.txs[id]) && t'.writes == s.txs[id].writes
    requires Stored(t') != {} ==> t'.status.commitTs == s.txs[id].status.commitTs
    ensures Holds(CCells, h, s')
  {
    forall i | i in s'.txs ensures StoredSound(s'.cells, s'.txs[i]) {
      assert StoredSound(s.cells, s.txs[i]);
    }
  }

  lemma FinishLog(h: Key -> Fp, s: Sys, id: Id)
    requires Inv(h, s) && Applying(s, id) && s.txs[id].status.applied == s.txs[id].writes.Keys
    ensures Holds(CLog, h, DoFinish(s, id))
  {
    var s' := DoFinish(s, id);
    assert Holds(CLog, h, s) && Holds(COwners, h, s);
    forall i | i in s'.txs && s'.txs[i].status.Applied?
      ensures s'.txs[i].status.commitTs in s'.log && s'.log[s'.txs[i].status.commitTs] == s'.txs[i].ops
    {
      if i != id { assert s.txs[i].status.commitTs != s.txs[id].status.commitTs; }
    }
  }

  /** Publishing a commit leaves every snapshot already handed out as it was. */
  lemma FinishTold(h: Key -> Fp, s: Sys, id: Id, i: Id)
    requires Inv(h, s) && Applying(s, id) && i in s.txs && Told(s.log, s.txs[i])
    ensures Told(DoFinish(s, id).log, DoFinish(s, id).txs[i])
  {
    assert Holds(CTxs, h, s) && Holds(COracle, h, s);
    assert TxSound(s.o, s.txs[i]) && TxSound(s.o, s.txs[id]);
    DbAtFrame(s.log, DoFinish(s, id).log, s.txs[i].readTs);
  }

  lemma StepFail(h: Key -> Fp, s: Sys, id: Id)
    requires Inv(h, s) && Applying(s, id) && s.txs[id].status.applied == {}
    ensures Inv(h, DoFail(s, id))
  {
    var s' := DoFail(s, id);
    var t, t' := s.txs[id], s'.txs[id];
    assert Holds(COracle, h, s) && Holds(CTxs, h, s);
    assert TxSound(s.o, t);
    AppliedHorizon(s.o, t.status.commitTs);
    forall c: Clause ensures Holds(c, h, s') {
      match c {
        case COracle =>
        case CReaders => assert Holds(CReaders, h, s); SameRegistered(h, s, s', id, t');
        case CTxs => assert Holds(COwners, h, s); ForwardTxs(s.o, s'.o, s.txs, s.owner, id, t');
        case COwners => assert Holds(COwners, h, s); MovedOwners(s.txs, s.owner, id, t');
        case CAwaited => ForwardAwaited(h, s, s', id, t');
        case CHistory => assert Holds(CHistory, h, s); ForwardHistory(h, s.o, s'.o, s.txs, id, t');
        case CExact => assert Holds(CExact, h, s); MovedExact(h, s, s', id, t');
        case CIsolated => assert Holds(CIsolated, h, s); MovedIsolated(s.txs, id, t');
        case CCells => assert Holds(CCells, h, s); SameStored(h, s, s', id, t');
        case CLog => assert Holds(CLog, h, s); SameLog(h, s, s', id, t');
        case CCalls => assert Holds(CCalls, h, s); SameCalls(h, s, s', id, t');
      }
    }
  }

  lemma {:induction false} ForgetOnly(history: seq<Committed>, ts: nat)
    requires Increasing(history)
    ensures Increasing(Forget(history, ts))
    ensures forall c :: c in Forget(history, ts) ==> c in history && c.commitTs != ts
    ensures forall c :: c in history && c.commitTs != ts ==> c in Forget(history, ts)
  {
    if history != [] && history[0].commitTs != ts {
      ForgetOnly(history[1..], ts);
    }
  }

  lemma StepAbort(h: Key -> Fp, s: Sys, id: Id)
    requires Inv(h, s) && id in s.txs && s.txs[id].status.Failed?
    ensures Inv(h, DoAbort(s, id))
  {
    var s' := DoAbort(s, id);
    var t, t' := s.txs[id], s'.txs[id];
    assert Holds(COracle, h, s) && Holds(CTxs, h, s);
    assert TxSound(s.o, t);
    AbortSound(s.o, t.status.commitTs);
    forall c: Clause ensures Holds(c, h, s') {
      match c {
        case COracle =>
        case CReaders => assert Holds(CReaders, h, s); SameRegistered(h, s, s', id, t');
        case CTxs => assert Holds(COwners, h, s); ForwardTxs(s.o, s'.o, s.txs, s.owner, id, t');
        case COwners => assert Holds(COwners, h, s); MovedOwners(s.txs, s.owner, id, t');
        case CAwaited => ForwardAwaited(h, s, s', id, t');
        case CHistory => assert Holds(CHistory, h, s) && Holds(COwners, h, s);
            ForwardHistory(h, s.o, s'.o, s.txs, id, t');
        case CExact => AbortExact(h, s, id);
        case CIsolated => assert Holds(CIsolated, h, s); AbortIsolated(s.txs, id, t');
        case CCells => assert Holds(CCells, h, s); SameStored(h, s, s', id, t');
        case CLog => assert Holds(CLog, h, s); SameLog(h, s, s', id, t');
        case CCalls => assert Holds(CCalls, h, s); SameCalls(h, s, s', id, t');
      }
    }
  }

  lemma AbortSound(o: OracleState, ts: nat)
    requires Sound(o) && ts !in o.awaiting
    ensures var o' := Abort(o, ts);
            && Sound(o') && o'.appliedTs == o.appliedTs && o'.nextTs == o.nextTs
            && o'.awaiting == o.awaiting && o'.readers == o.readers
            && forall c :: c in o.history && c.commitTs != ts ==> c in o'.history
  {
    ForgetOnly(o.history, ts);
    var history := Forget(o.history, ts);
    assert o.awaiting - {ts} == o.awaiting;
    AdvanceSound(o.(history := history));
  }

  lemma AbortExact(h: Key -> Fp, s: Sys, id: Id)
    requires Inv(h, s) && id in s.txs && s.txs[id].status.Failed?
    ensures Holds(CExact, h, DoAbort(s, id))
  {
    var s' := DoAbort(s, id);
    assert Holds(CExact, h, s) && Holds(COwners, h, s) && Holds(COracle, h, s);
    var ts := s.txs[id].status.commitTs;
    ForgetOnly(s.o.history, ts);
    forall c | c in s'.o.history ensures Remembers(h, s'.txs, s'.owner, c) {
      assert Remembers(h, s.txs, s.owner, c);
    }
  }

  lemma AbortIsolated(txs: map<Id, Tx>, id: Id, t': Tx)
    requires Isolated(txs) && id in txs && !Live(t')
    ensures Isolated(txs[id := t'])
  {
    var txs' := txs[id := t'];
    forall i, j | i in txs' && j in txs' && Live(txs'[i]) && Live(txs'[j]) ensures Apart(txs'[i], txs'[j]) {
      assert Apart(txs[i], txs[j]);
    }
  }

  // ---------------------------------------------------------------- runs

  lemma InvStep(h: Key -> Fp, s: Sys, a: Action)
    requires Inv(h, s) && Enabled(s, a)
    ensures Inv(h, Step(h, s, a))
  {
    match a {
      case BeginTx(id, ro) => StepBegin(h, s, id, ro);
      case Read(id, k) => StepTold(h, s, id, k, Answer(s, s.txs[id], k));
      case Write(id, k, p) => StepWrite(h, s, id, k, p);
      case Close(id) => StepClose(h, s, id);
      case Check(id) =>
        if Refused(h, s, id) { StepClose(h, s, id); }
        else { StepCheck(h, s, id); }
      case ApplyOne(id, k) => StepApply(h, s, id, k);
      case Finish(id) => StepFinish(h, s, id);
      case Fail(id) => StepFail(h, s, id);
      case AbortCommit(id) => StepAbort(h, s, id);
      case Unregister(id) => StepUnregister(h, s, id);
      case AdvanceHorizon =>
        assert Holds(COracle, h, s);
        assert Step(h, s, a) == s;
      case Tick(now) =>
        assert Holds(CReaders, h, s) && Holds(CCalls, h, s) && Holds(CTxs, h, s);
        assert Holds(CReaders, h, Step(h, s, a)) && Holds(CCalls, h, Step(h, s, a)) && Holds(CTxs, h, Step(h, s, a));
        QuietStep(h, s, Step(h, s, a));
    }
  }

  lemma {:induction false} InvRun(h: Key -> Fp, states: seq<Sys>, acts: seq<Action>, n: nat)
    requires Run(h, states, acts) && n < |states|
    ensures Inv(h, states[n])
  {
    if n == 0 { InvStart(h); }
    else {
      InvRun(h, states, acts, n - 1);
      InvStep(h, states[n - 1], acts[n - 1]);
    }
  }

  /** Who has been told right so far is told right by every step. */
  lemma ToldStep(h: Key -> Fp, s: Sys, a: Action, i: Id)
    requires Inv(h, s) && Enabled(s, a) && i in s.txs && Told(s.log, s.txs[i])
    ensures i in Step(h, s, a).txs && Told(Step(h, s, a).log, Step(h, s, a).txs[i])
  {
    match a {
      case Read(id, k) => if id == i { ReadTold(h, s, id, k); }
      case Write(id, k, p) =>
        if id == i {
          assert Recorded(s.txs[id]) by { assert Holds(CCalls, h, s); }
          WriteCalls(s.log, s.txs[id], k, p);
        }
      case Finish(id) => FinishTold(h, s, id, i);
      case _ =>
    }
  }

  /** A transaction that begins has not been told anything. */
  lemma ToldFirst(h: Key -> Fp, s: Sys, a: Action, i: Id)
    requires Enabled(s, a) && i !in s.txs && i in Step(h, s, a).txs
    ensures Told(Step(h, s, a).log, Step(h, s, a).txs[i])
  {
    assert a.BeginTx?;
  }

  lemma {:induction false} ToldRun(h: Key -> Fp, states: seq<Sys>, acts: seq<Action>, n: nat, id: Id)
    requires Run(h, states, acts) && n < |states| && id in states[n].txs
    ensures Told(states[n].log, states[n].txs[id])
  {
    if n > 0 {
      InvRun(h, states, acts, n - 1);
      if id in states[n - 1].txs {
        ToldRun(h, states, acts, n - 1, id);
        ToldStep(h, states[n - 1], acts[n - 1], id);
      } else {
        ToldFirst(h, states[n - 1], acts[n - 1], id);
      }
    }
  }

  // ---------------------------------------------------------------- what the runs guarantee

  /** A commit's snapshot and the serial database it is inserted into agree on all it read. */
  lemma SnapshotStillCurrent(h: Key -> Fp, s: Sys, id: Id, k: Key)
    requires Inv(h, s) && id in s.txs && s.txs[id].status.Applied? && k in s.txs[id].readSet
    ensures s.txs[id].status.commitTs >= 1 && s.txs[id].readTs <= s.txs[id].status.commitTs - 1
    ensures Find(DbAt(s.log, s.txs[id].readTs), k) == Find(DbAt(s.log, s.txs[id].status.commitTs - 1), k)
  {
    var t := s.txs[id];
    assert TxSound(s.o, t) by { assert Holds(CTxs, h, s); }
    forall j | j in s.txs && s.txs[j].status.Applied? && t.readTs < s.txs[j].status.commitTs <= t.status.commitTs - 1
      ensures k !in s.txs[j].writes
    {
      assert Holds(CIsolated, h, s);
      assert Apart(t, s.txs[j]);
    }
    Untouched(h, s, k, t.readTs, t.status.commitTs - 1);
  }

  /** The successful commit `id`, replayed alone on the database left by all commits with smaller
      timestamps, gets the answers it was given, and leaves the database the next commit is
      replayed on. */
  ghost predicate Replays(s: Sys, id: Id)
    requires id in s.txs && s.txs[id].status.Applied?
  {
    var t := s.txs[id];
    var ts := t.status.commitTs;
    && ts >= 1
    && Execute(DbAt(s.log, ts - 1), t.ops).ok
    && Execute(DbAt(s.log, ts - 1), t.ops).db == DbAt(s.log, ts)
  }

  /** Transaction `id`, successful or not, read the database of its own timestamp. */
  ghost predicate ReadsSnapshot(s: Sys, id: Id)
    requires id in s.txs
  {
    var t := s.txs[id];
    && Execute(DbAt(s.log, t.readTs), t.ops).ok
    && (t.writes == map[] ==> Execute(DbAt(s.log, t.readTs), t.ops).db == DbAt(s.log, t.readTs))
  }

  lemma AnswersStillHold(h: Key -> Fp, s: Sys, id: Id)
    requires Inv(h, s) && id in s.txs && s.txs[id].status.Applied? && Told(s.log, s.txs[id])
    ensures s.txs[id].status.commitTs >= 1
    ensures Execute(DbAt(s.log, s.txs[id].status.commitTs - 1), s.txs[id].ops).ok
  {
    var t := s.txs[id];
    var ts := t.status.commitTs;
    assert TxSound(s.o, t) by { assert Holds(CTxs, h, s); }
    assert Recorded(t) by { assert Holds(CCalls, h, s); }
    forall k | k in SnapshotReads(t.ops)
      ensures Find(DbAt(s.log, t.readTs), k) == Find(DbAt(s.log, ts - 1), k)
    {
      SnapshotStillCurrent(h, s, id, k);
    }
    ExecuteAgrees(DbAt(s.log, t.readTs), DbAt(s.log, ts - 1), t.ops);
  }

  lemma CommitsReplay(h: Key -> Fp, s: Sys, id: Id)
    requires Inv(h, s) && id in s.txs && s.txs[id].status.Applied? && Told(s.log, s.txs[id])
    ensures Replays(s, id)
  {
    AnswersStillHold(h, s, id);
    assert Holds(CLog, h, s);
  }

  lemma SnapshotsHold(h: Key -> Fp, s: Sys, id: Id)
    requires Inv(h, s) && id in s.txs && Told(s.log, s.txs[id])
    ensures ReadsSnapshot(s, id)
  {
    var t := s.txs[id];
    assert Recorded(t) by { assert Holds(CCalls, h, s); }
    ExecuteWrites(DbAt(s.log, t.readTs), t.ops);
  }

  /** Serializability: in every state of every run, every successful commit replays in
      commit-timestamp order. */
  lemma Serializable(h: Key -> Fp, states: seq<Sys>, acts: seq<Action>, n: nat, id: Id)
    requires Run(h, states, acts) && n < |states|
    requires id in states[n].txs && states[n].txs[id].status.Applied?
    ensures Replays(states[n], id)
  {
    InvRun(h, states, acts, n);
    ToldRun(h, states, acts, n, id);
    CommitsReplay(h, states[n], id);
  }

  /** Every transaction, whatever becomes of it, reads the database of its own timestamp: a
      read-only one is serialized right after the commits stamped at most `readTs`. */
  lemma SnapshotSerializable(h: Key -> Fp, states: seq<Sys>, acts: seq<Action>, n: nat, id: Id)
    requires Run(h, states, acts) && n < |states| && id in states[n].txs
    ensures ReadsSnapshot(states[n], id)
  {
    InvRun(h, states, acts, n);
    ToldRun(h, states, acts, n, id);
    SnapshotsHold(h, states[n], id);
  }

  /** The conflict check is exact up to fingerprint collisions: a commit is refused exactly when
      a commit that has not been taken back is stamped after its snapshot and shares a fingerprint
      with what it read or wrote. In particular trimming never hides such a commit. */
  lemma RefusedExactly(h: Key -> Fp, s: Sys, id: Id)
    requires Inv(h, s) && Runnable(s, id)
    ensures Refused(h, s, id) <==> exists j :: j in s.txs && Contends(h, s.txs[id], s.txs[j])
  {
    var t := s.txs[id];
    forall j | j in s.txs && Standing(s.txs[j]) && s.txs[j].status.commitTs > t.readTs
      ensures Contends(h, t, s.txs[j]) <==> !(Fps(h, s.txs[j].writes.Keys) !! CheckFps(h, t)) {
      SharedFp(h, t, s.txs[j]);
    }
    if Refused(h, s, id) {
      var n :| 0 <= n < |s.o.history| && s.o.history[n].commitTs > t.readTs
               && !(s.o.history[n].writes !! CheckFps(h, t));
      var c := s.o.history[n];
      assert c in s.o.history;
      assert Holds(CExact, h, s) && Holds(COwners, h, s);
      assert Remembers(h, s.txs, s.owner, c);
      assert Contends(h, t, s.txs[s.owner[c.commitTs]]);
    } else {
      forall j | j in s.txs ensures !Contends(h, t, s.txs[j]) {
        if Standing(s.txs[j]) && s.txs[j].status.commitTs > t.readTs { UncontestedFps(h, s, id, j); }
      }
    }
  }

  /** `u` has a commit timestamp after the snapshot of `t` that has not been taken back, and has written a key with the
      fingerprint of one that `t` has read or written. */
  ghost predicate Contends(h: Key -> Fp, t: Tx, u: Tx) {
    && (u.status.Pending? || u.status.Applied? || u.status.Failed?) && u.status.commitTs > t.readTs
    && exists k, x :: (k in t.readSet || k in t.writes) && x in u.writes && h(k) == h(x)
  }

  lemma SharedFp(h: Key -> Fp, t: Tx, u: Tx)
    ensures !(Fps(h, u.writes.Keys) !! CheckFps(h, t)) <==>
              exists k, x :: (k in t.readSet || k in t.writes) && x in u.writes && h(k) == h(x)
  {
    if k, x :| (k in t.readSet || k in t.writes) && x in u.writes && h(k) == h(x) {
      assert h(x) in Fps(h, u.writes.Keys) && h(k) in CheckFps(h, t);
    }
    if !(Fps(h, u.writes.Keys) !! CheckFps(h, t)) {
      var fp :| fp in Fps(h, u.writes.Keys) && fp in CheckFps(h, t);
      var x :| x in u.writes && h(x) == fp;
      var k :| (k in t.readSet || k in t.writes) && h(k) == fp;
    }
  }

  /** Two different committed writers of a key are applied in timestamp order: when a version of
      `k` reaches the store, every stored version of `k` is older. */
  lemma AppliedInOrder(h: Key -> Fp, s: Sys, id: Id, k: Key, c: Cell)
    requires Inv(h, s) && Enabled(s, ApplyOne(id, k)) && c in s.cells && c.key == k
    ensures c.version < s.txs[id].status.commitTs
  {
    var t := s.txs[id];
    var u := WriterOf(h, s, c);
    assert TxSound(s.o, t) by { assert Holds(CTxs, h, s); }
    assert c.version != t.status.commitTs by { assert Holds(COwners, h, s); }
    assert u.readTs < t.status.commitTs by { AppliedAboveHorizon(h, s, id); }
    assert Apart(u, t) by { assert Holds(CIsolated, h, s); }
    assert k in t.writes.Keys && k in u.writes.Keys;
  }

  /** Nothing at or below the horizon is ever stored again. */
  lemma AppliedAboveHorizon(h: Key -> Fp, s: Sys, id: Id)
    requires Inv(h, s) && Applying(s, id)
    ensures s.txs[id].status.commitTs > s.o.appliedTs
  {
    assert Holds(CTxs, h, s) && Holds(COracle, h, s);
    assert TxSound(s.o, s.txs[id]);
  }

  ghost predicate SameUpTo(a: map<Cell, Payload>, b: map<Cell, Payload>, ts: nat) {
    forall c: Cell :: c.version <= ts ==> (c in a <==> c in b) && (c in a ==> a[c] == b[c])
  }

  lemma StepKeepsPast(h: Key -> Fp, s: Sys, a: Action)
    requires Inv(h, s) && Enabled(s, a)
    ensures SameUpTo(s.cells, Step(h, s, a).cells, s.o.appliedTs)
    ensures s.o.appliedTs <= Step(h, s, a).o.appliedTs
  {
    if a.ApplyOne? { AppliedAboveHorizon(h, s, a.id); }
    if a.Check? { assert Holds(COracle, h, s); }
  }

  /** What a snapshot can see is settled when it is handed out: later states of the run hold the
      same versions up to the horizon of any earlier state. */
  lemma {:induction false} PastIsSettled(h: Key -> Fp, states: seq<Sys>, acts: seq<Action>, i: nat, j: nat)
    requires Run(h, states, acts) && i <= j < |states|
    ensures SameUpTo(states[i].cells, states[j].cells, states[i].o.appliedTs)
    ensures states[i].o.appliedTs <= states[j].o.appliedTs
    decreases j
  {
    if i < j {
      PastIsSettled(h, states, acts, i, j - 1);
      InvRun(h, states, acts, j - 1);
      StepKeepsPast(h, states[j - 1], acts[j - 1]);
    }
  }

  /** The horizon is never stuck: once no batch is being applied it has reached the counter. */
  lemma HorizonCatchesUp(h: Key -> Fp, s: Sys)
    requires Inv(h, s) && forall id :: id in s.txs ==> !s.txs[id].status.Pending?
    ensures s.o.appliedTs == s.o.nextTs
  {
    assert Holds(COracle, h, s) && Holds(CAwaited, h, s);
  }

  lemma MinReadGrows(o: OracleState, o': OracleState)
    requires MinRead(o) <= o'.appliedTs && forall r :: r in o'.readers ==> MinRead(o) <= r
    ensures MinRead(o) <= MinRead(o')
  {
    if o'.readers != multiset{} { assert MinRead(o') in o'.readers; }
  }

  /** The watermark never goes back, so a sample of it stays a lower bound. */
  lemma WatermarkGrows(h: Key -> Fp, s: Sys, a: Action)
    requires Inv(h, s) && Enabled(s, a)
    ensures MinRead(s.o) <= MinRead(Step(h, s, a).o)
  {
    StepKeepsPast(h, s, a);
    assert Holds(COracle, h, s);
    var o, o' := s.o, Step(h, s, a).o;
    assert IsMinRead(o, MinRead(o));
    forall r | r in o'.readers ensures MinRead(o) <= r {
      if r !in o.readers { assert a.BeginTx? && r == ReadTs(o); }
    }
    MinReadGrows(o, o');
  }
}
