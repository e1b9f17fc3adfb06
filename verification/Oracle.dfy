/** The timestamp oracle: what its state means, free of the index and of the cached
    minimum that the implementation keeps for speed. */
module OracleSpec {

  /** A 64-bit key fingerprint. */
  type Fp = nat

  datatype Committed = Committed(commitTs: nat, writes: set<Fp>)

  datatype OracleState = OracleState(
    nextTs: nat, appliedTs: nat, awaiting: set<nat>, history: seq<Committed>, readers: multiset<nat>)

  /** The last timestamp reachable from `applied` without stepping on an awaited one. */
  function AdvanceFrom(applied: nat, next: nat, awaiting: set<nat>): (r: nat)
    ensures applied <= r && (applied <= next ==> r <= next)
    ensures forall t :: applied < t <= r ==> t !in awaiting
    ensures r >= next || r + 1 in awaiting
    decreases next - applied
  {
    if applied + 1 > next || applied + 1 in awaiting then applied
    else AdvanceFrom(applied + 1, next, awaiting)
  }

  ghost function Advance(o: OracleState): OracleState {
    o.(appliedTs := AdvanceFrom(o.appliedTs, o.nextTs, o.awaiting))
  }

  ghost function Assign(o: OracleState): OracleState {
    o.(nextTs := o.nextTs + 1, awaiting := o.awaiting + {o.nextTs + 1})
  }

  ghost function Begin(o: OracleState): OracleState {
    o.(readers := o.readers + multiset{ReadTs(o)})
  }

  ghost function ReadTs(o: OracleState): nat {
    if o.appliedTs == 0 then 1 else o.appliedTs
  }

  ghost function Done(o: OracleState, readTs: nat): OracleState {
    o.(readers := o.readers - multiset{readTs})
  }

  ghost function MarkApplied(o: OracleState, ts: nat): OracleState {
    if ts <= o.appliedTs then o else Advance(o.(awaiting := o.awaiting - {ts}))
  }

  /** `m` is the watermark: the oldest snapshot in use, or the horizon when there is none. */
  ghost predicate IsMinRead(o: OracleState, m: nat) {
    if o.readers == multiset{} then m == o.appliedTs
    else m in o.readers && forall r :: r in o.readers ==> m <= r
  }

  lemma MinReadExists(readers: multiset<nat>) returns (m: nat)
    requires readers != multiset{}
    ensures m in readers && forall r :: r in readers ==> m <= r
    decreases |readers|
  {
    m :| m in readers;
    var rest := readers - multiset{m};
    assert readers == multiset{m} + rest;
    if rest != multiset{} {
      var n := MinReadExists(rest);
      if n < m { m := n; }
    }
  }

  ghost function MinRead(o: OracleState): (m: nat)
    ensures IsMinRead(o, m)
  {
    if o.readers == multiset{} then o.appliedTs
    else
      assert exists m :: IsMinRead(o, m) by {
        var m := MinReadExists(o.readers);
        assert IsMinRead(o, m);
      }
      var m :| IsMinRead(o, m); m
  }

  /** Some remembered commit after `readTs` wrote one of `fps`. */
  ghost predicate Conflicts(history: seq<Committed>, readTs: nat, fps: set<Fp>) {
    exists i :: 0 <= i < |history| && history[i].commitTs > readTs && !(history[i].writes !! fps)
  }

  /** Forgets the leading commits older than `minTs`. */
  function Trim(history: seq<Committed>, minTs: nat): (r: seq<Committed>)
    ensures forall c :: c in r ==> c in history
    ensures forall c :: c in history && c.commitTs >= minTs ==> c in r
    ensures Increasing(history) ==> Increasing(r) && forall c :: c in r ==> c.commitTs >= minTs
  {
    if |history| > 0 && history[0].commitTs < minTs then Trim(history[1..], minTs) else history
  }

  /** Stamps and remembers a commit, forgetting what lies below the watermark `m`. */
  ghost function CommitAbove(o: OracleState, writes: set<Fp>, m: nat): OracleState {
    var a := Assign(o);
    a.(history := Trim(o.history + [Committed(a.nextTs, writes)], m))
  }

  ghost function Commit(o: OracleState, writes: set<Fp>): OracleState {
    CommitAbove(o, writes, MinRead(o))
  }

  /** Drops the commit stamped `ts`, if it is still remembered. */
  function Forget(history: seq<Committed>, ts: nat): seq<Committed> {
    if history == [] then []
    else if history[0].commitTs == ts then history[1..]
    else [history[0]] + Forget(history[1..], ts)
  }

  ghost function Abort(o: OracleState, ts: nat): OracleState {
    Advance(o.(awaiting := o.awaiting - {ts}, history := Forget(o.history, ts)))
  }

  predicate Increasing(history: seq<Committed>) {
    forall i, j :: 0 <= i < j < |history| ==> history[i].commitTs < history[j].commitTs
  }

  /** Every reachable oracle: commits are remembered in order, only timestamps between the
      horizon and the counter are awaited, and the horizon never lags for no reason. */
  ghost predicate Sound(o: OracleState) {
    && 1 <= o.appliedTs <= o.nextTs
    && (forall t :: t in o.awaiting ==> o.appliedTs < t <= o.nextTs)
    && (o.appliedTs == o.nextTs || o.appliedTs + 1 in o.awaiting)
    && Increasing(o.history)
    && (forall c :: c in o.history ==> c.commitTs <= o.nextTs)
    && (forall r :: r in o.readers ==> r <= o.appliedTs)
  }

  const Initial := OracleState(1, 1, {}, [], multiset{})
}
