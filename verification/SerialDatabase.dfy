/** What running calls alone on an ordinary map means, told from the calls themselves: which value a key has
    afterwards, and which answers are right. */
module SerialDatabase {
  import opened Store
  import opened Transactions

  /** Call `i` is the last write of `k` before call `j`. */
  ghost predicate LastPut(ops: seq<Op>, k: Key, i: nat, j: nat) {
    && i < j <= |ops| && ops[i].Put? && ops[i].key == k
    && forall m :: i < m < j && ops[m].Put? ==> ops[m].key != k
  }

  /** No call before call `j` writes `k`. */
  ghost predicate NoPut(ops: seq<Op>, k: Key, j: nat) {
    forall m :: 0 <= m < j && m < |ops| && ops[m].Put? ==> ops[m].key != k
  }

  ghost predicate Agree(a: seq<Op>, b: seq<Op>, j: nat) {
    j <= |a| && j <= |b| && forall m :: 0 <= m < j ==> a[m] == b[m]
  }

  /** Only the calls before call `j` matter. */
  lemma SamePut(a: seq<Op>, b: seq<Op>, k: Key, i: nat, j: nat)
    requires Agree(a, b, j)
    ensures LastPut(a, k, i, j) <==> LastPut(b, k, i, j)
  {
    if i < j { assert a[i] == b[i]; }
  }

  lemma SameNoPut(a: seq<Op>, b: seq<Op>, k: Key, j: nat)
    requires Agree(a, b, j)
    ensures NoPut(a, k, j) <==> NoPut(b, k, j)
  {}

  lemma OneLast(ops: seq<Op>, k: Key, i: nat, i': nat, j: nat)
    requires LastPut(ops, k, i, j) && LastPut(ops, k, i', j)
    ensures i == i'
  {}

  lemma {:induction false} PutOrNot(ops: seq<Op>, k: Key, j: nat) returns (i: nat)
    requires j <= |ops|
    ensures LastPut(ops, k, i, j) || NoPut(ops, k, j)
  {
    i := 0;
    if j > 0 {
      if ops[j - 1].Put? && ops[j - 1].key == k { i := j - 1; } else { i := PutOrNot(ops, k, j - 1); }
    }
  }

  /** A key has the value of its last write afterwards. */
  lemma {:induction false} ExecuteWrites(db: map<Key, Payload>, ops: seq<Op>, k: Key, i: nat)
    requires LastPut(ops, k, i, |ops|)
    ensures var r := Execute(db, ops); k in r.own && k in r.db && r.db[k] == ops[i].payload
  {
    var n := |ops| - 1;
    if i < n {
      SamePut(ops[..n], ops, k, i, n);
      ExecuteWrites(db, ops[..n], k, i);
    }
  }

  /** A key that is not written stays as it was. */
  lemma {:induction false} ExecuteLeaves(db: map<Key, Payload>, ops: seq<Op>, k: Key)
    requires NoPut(ops, k, |ops|)
    ensures var r := Execute(db, ops); k !in r.own && (k in r.db <==> k in db) && (k in db ==> r.db[k] == db[k])
  {
    if ops != [] {
      var n := |ops| - 1;
      SameNoPut(ops[..n], ops, k, n);
      ExecuteLeaves(db, ops[..n], k);
    }
  }

  /** Call `j`, if it is a read, got the transaction's own last write of the key, whatever its expiry; or,
      without one, what the database holds, unless it is deleted or expired. */
  ghost predicate RightAnswer(db: map<Key, Payload>, ops: seq<Op>, j: nat) {
    j < |ops| && ops[j].Get? ==>
      var k, now := ops[j].key, ops[j].now;
      && (forall i: nat :: LastPut(ops, k, i, j) ==>
            ops[j].result == if ops[i].payload.deleted then None else Some(ops[i].payload.value))
      && (NoPut(ops, k, j) ==>
            ops[j].result ==
              if k in db && !db[k].deleted && (db[k].expiresAt <= 0 || now < db[k].expiresAt)
              then Some(db[k].value) else None)
  }

  /** Calls run alone give the answers they got if and only if each answer is right. */
  lemma {:induction false} ExecuteOkIff(db: map<Key, Payload>, ops: seq<Op>)
    ensures Execute(db, ops).ok <==> forall j: nat :: RightAnswer(db, ops, j)
  {
    if ops != [] {
      var n := |ops| - 1;
      ExecuteOkIff(db, ops[..n]);
      LastAnswer(db, ops, n);
      AllFront(db, ops, n);
    }
  }

  lemma AllFront(db: map<Key, Payload>, ops: seq<Op>, n: nat)
    requires n + 1 == |ops|
    ensures (forall j: nat :: RightAnswer(db, ops, j)) <==>
              RightAnswer(db, ops, n) && forall j: nat :: RightAnswer(db, ops[..n], j)
  {
    forall j: nat | j < n ensures RightAnswer(db, ops[..n], j) <==> RightAnswer(db, ops, j) {
      FrontAnswer(db, ops, n, j);
    }
  }

  lemma FrontAnswer(db: map<Key, Payload>, ops: seq<Op>, n: nat, j: nat)
    requires j < n <= |ops|
    ensures RightAnswer(db, ops[..n], j) <==> RightAnswer(db, ops, j)
  {
    var k := ops[j].key;
    forall i: nat ensures LastPut(ops[..n], k, i, j) <==> LastPut(ops, k, i, j) { SamePut(ops[..n], ops, k, i, j); }
    SameNoPut(ops[..n], ops, k, j);
  }

  lemma LastAnswer(db: map<Key, Payload>, ops: seq<Op>, n: nat)
    requires n + 1 == |ops|
    ensures Execute(db, ops).ok <==> Execute(db, ops[..n]).ok && RightAnswer(db, ops, n)
  {
    if ops[n].Get? {
      var k, front := ops[n].key, ops[..n];
      var i := PutOrNot(ops, k, n);
      SamePut(front, ops, k, i, n);
      SameNoPut(front, ops, k, n);
      if LastPut(ops, k, i, n) {
        ExecuteWrites(db, front, k, i);
        forall i': nat | LastPut(ops, k, i', n) ensures i' == i { OneLast(ops, k, i, i', n); }
      } else {
        ExecuteLeaves(db, front, k);
      }
    }
  }

  // ---------------------------------------------------------------- many transactions, one after another

  /** Of the commits up to `t`, the one at `ts` is the last that writes `k`, with its call `i`. */
  ghost predicate LastCommit(log: map<nat, seq<Op>>, t: nat, k: Key, ts: nat, i: nat) {
    && 0 < ts <= t && ts in log && LastPut(log[ts], k, i, |log[ts]|)
    && forall u :: ts < u <= t && u in log ==> NoPut(log[u], k, |log[u]|)
  }

  ghost predicate NeverPut(log: map<nat, seq<Op>>, t: nat, k: Key) {
    forall u :: 0 < u <= t && u in log ==> NoPut(log[u], k, |log[u]|)
  }

  /** The serial database holds the last committed write of a key. */
  lemma {:induction false} DbHolds(log: map<nat, seq<Op>>, t: nat, k: Key, ts: nat, i: nat)
    requires LastCommit(log, t, k, ts, i)
    ensures k in DbAt(log, t) && DbAt(log, t)[k] == log[ts][i].payload
  {
    if ts == t {
      ExecuteWrites(DbAt(log, t - 1), log[t], k, i);
    } else {
      DbHolds(log, t - 1, k, ts, i);
      if t in log { ExecuteLeaves(DbAt(log, t - 1), log[t], k); }
    }
  }

  /** It does not hold a key that was never written. */
  lemma {:induction false} DbLacks(log: map<nat, seq<Op>>, t: nat, k: Key)
    requires NeverPut(log, t, k)
    ensures k !in DbAt(log, t)
  {
    if t > 0 {
      DbLacks(log, t - 1, k);
      if t in log { ExecuteLeaves(DbAt(log, t - 1), log[t], k); }
    }
  }
}
